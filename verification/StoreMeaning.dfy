/** What the store's operations mean, on values. */
module StoreMeaning {
  import opened NodeParts
  import opened Wrappers

  /** Key's hash of the connection fields and extra options, and the digest that turns it into an id. */
  datatype Hash = Hash(key: (string, map<string, string>) -> string, digest: string -> string)

  type Catalog = map<string, NodeV>

  function OptionsOf(v: NodeV): map<string, string> {
    if Extra in v.own && v.own[Extra].OptionsV? then v.own[Extra].entries else map[]
  }

  function KeyV(h: Hash, v: NodeV): string {
    h.key(v.s.conn, OptionsOf(v))
  }

  function IdV(h: Hash, v: NodeV): string {
    h.digest(KeyV(h, v))
  }

  /** Every node sits under its own id, which is the id its connection recomputes to. */
  ghost predicate Indexed(h: Hash, c: Catalog) {
    forall id :: id in c ==> c[id].s.id == id && IdV(h, c[id]) == id
  }

  /** With hashes that do not collide, an id stands for a connection with its options. */
  lemma IdDecides(h: Hash, a: NodeV, b: NodeV)
    requires forall x, m, y, n :: h.key(x, m) == h.key(y, n) ==> x == y && m == n
    requires forall x, y :: h.digest(x) == h.digest(y) ==> x == y
    ensures IdV(h, a) == IdV(h, b) <==> a.s.conn == b.s.conn && OptionsOf(a) == OptionsOf(b)
  {
  }

  // ------------------------------------------------------------- replace

  /** The plain fields of mergeObservations; `noDial` says that the new node has no dial result. */
  function MergedScalars(d: Scalars, o: Scalars, noDial: bool): Scalars {
    var a := if d.firstSeenAt == 0 then d.(firstSeenAt := o.firstSeenAt) else d;
    var b := if d.lastSeenAt == 0 then a.(lastSeenAt := o.lastSeenAt) else a;
    var t := if d.test.testedAt == 0 then b.(test := o.test) else b;
    var g := if d.geo.country == "" then t.(geo := o.geo) else t;
    if noDial then g.(verified := o.verified) else g
  }

  /** The references mergeObservations assigns, given those the new node has. */
  function Carried(present: set<Field>, untested: bool): set<Field> {
    (if untested then {Quality, Tags} else {}) + ({Ai, Dial, Purity} - present)
  }

  function Merged(v: NodeV, o: NodeV): NodeV {
    NodeV(MergedScalars(v.s, o.s, Dial !in v.own),
          Taken(Carried(v.own.Keys, v.s.test.testedAt == 0), v.own, o.own))
  }

  /** The stored node with this key, which can only be under the digest of the key. */
  function WithKey(h: Hash, c: Catalog, key: string): Option<NodeV> {
    if h.digest(key) in c && KeyV(h, c[h.digest(key)]) == key then Some(c[h.digest(key)]) else None
  }

  /** What an imported node becomes, given the stored nodes it may carry observations over from. */
  function Imported(h: Hash, c: Catalog, v: NodeV, now: int): NodeV {
    ImportedWith(h, WithKey(h, c, KeyV(h, v)), v, now)
  }

  function ImportedWith(h: Hash, o: Option<NodeV>, v: NodeV, now: int): NodeV {
    var m := if o.Some? then Merged(v, o.value) else v;
    m.(s := Stamped(h, v, m.s, now))
  }

  function Stamped(h: Hash, v: NodeV, s: Scalars, now: int): Scalars {
    s.(firstSeenAt := if s.firstSeenAt == 0 then now else s.firstSeenAt,
       lastSeenAt := if s.lastSeenAt == 0 then now else s.lastSeenAt,
       id := IdV(h, v), fingerprint := KeyV(h, v))
  }

  /** ReplaceNodes on values; absent batch entries are skipped, the last of several with one id wins. */
  function Replaced(h: Hash, c: Catalog, batch: seq<Option<NodeV>>, now: int): Catalog {
    if batch == [] then map[]
    else
      var last := batch[|batch| - 1];
      var rest := Replaced(h, c, batch[..|batch| - 1], now);
      if last.None? then rest else rest[IdV(h, last.value) := Imported(h, c, last.value, now)]
  }

  function ImportedAll(h: Hash, c: Catalog, batch: seq<Option<NodeV>>, now: int): seq<Option<NodeV>> {
    seq(|batch|, i requires 0 <= i < |batch| =>
      if batch[i].Some? then Some(Imported(h, c, batch[i].value, now)) else None)
  }

  /** Nodes filed under their ids, later ones over earlier ones. */
  function Filed(batch: seq<Option<NodeV>>): Catalog {
    if batch == [] then map[]
    else
      FiledAlso(Filed(batch[..|batch| - 1]), batch[|batch| - 1])
  }

  function FiledAlso(c: Catalog, v: Option<NodeV>): Catalog {
    if v.None? then c else c[v.value.s.id := v.value]
  }

  lemma FiledSnoc(batch: seq<Option<NodeV>>, i: nat)
    requires i < |batch|
    ensures Filed(batch[..i + 1]) == FiledAlso(Filed(batch[..i]), batch[i])
  {
    assert batch[..i + 1][..i] == batch[..i];
  }

  lemma {:induction false} ReplacedFiled(h: Hash, c: Catalog, batch: seq<Option<NodeV>>, now: int)
    ensures Replaced(h, c, batch, now) == Filed(ImportedAll(h, c, batch, now))
    decreases |batch|
  {
    if batch != [] {
      var k := |batch| - 1;
      ReplacedFiled(h, c, batch[..k], now);
      assert ImportedAll(h, c, batch, now)[..k] == ImportedAll(h, c, batch[..k], now);
      if batch[k].Some? {
        ImportedNamed(h, c, batch[k].value, now);
      }
    }
  }

  // -------------------------------------------------------------- upsert

  function Pick(a: string, b: string): string {
    if a != "" then a else b
  }

  function Located(a: Geo, b: Geo): Geo {
    Geo(Pick(a.country, b.country), Pick(a.city, b.city), Pick(a.isp, b.isp), Pick(a.asn, b.asn),
        Pick(a.entryType, b.entryType))
  }

  function RefreshedScalars(o: Scalars, n: Scalars, noDial: bool): Scalars {
    o.(test := n.test, geo := Located(n.geo, o.geo), rawUri := Pick(n.rawUri, o.rawUri),
       firstSeenAt := if n.firstSeenAt != 0 then n.firstSeenAt else o.firstSeenAt,
       lastSeenAt := if n.lastSeenAt != 0 then n.lastSeenAt else o.lastSeenAt,
       verified := n.verified || (noDial && o.verified))
  }

  /** The references an observation writes, given those it shows. */
  function Written(present: set<Field>): set<Field> {
    {Quality, Ai} + ({Tags, Dial, Purity} * present)
  }

  /** The stored node `o` after an observation `n` of it. */
  function Refreshed(o: NodeV, n: NodeV): NodeV {
    NodeV(RefreshedScalars(o.s, n.s, Dial !in n.own), Taken(Written(n.own.Keys), o.own, n.own))
  }

  function Named(h: Hash, v: NodeV): NodeV {
    v.(s := v.s.(id := IdV(h, v)))
  }

  function NamedAll(h: Hash, vs: seq<NodeV>): seq<NodeV> {
    seq(|vs|, i requires 0 <= i < |vs| => Named(h, vs[i]))
  }

  function Absorbed(c: Catalog, n: NodeV): Catalog {
    c[n.s.id := if n.s.id in c then Refreshed(c[n.s.id], n) else n]
  }

  function Upserted(h: Hash, c: Catalog, v: NodeV): Catalog {
    Absorbed(c, Named(h, v))
  }

  function UpsertedAll(h: Hash, c: Catalog, batch: seq<NodeV>): Catalog {
    if batch == [] then c
    else Upserted(h, UpsertedAll(h, c, batch[..|batch| - 1]), batch[|batch| - 1])
  }

  // ---------------------------------------------------------- properties

  /** Two nodes agree on a reference field. */
  predicate Same(f: Field, a: NodeV, b: NodeV) {
    (f in a.own <==> f in b.own) && (f in a.own ==> a.own[f] == b.own[f])
  }

  lemma OwnMergeSettles(d: OwnV, o: OwnV, untested: bool, still: bool)
    requires still ==> untested
    ensures var m := Taken(Carried(d.Keys, untested), d, o); Taken(Carried(m.Keys, still), m, o) == m
  {
  }

  lemma ScalarMergeSettles(h: Hash, v: NodeV, w: NodeV, o: Scalars, noDial: bool, still: bool, now: int)
    requires (still ==> noDial) && IdV(h, v) == IdV(h, w) && KeyV(h, v) == KeyV(h, w)
    ensures var m := Stamped(h, v, MergedScalars(v.s, o, noDial), now);
            Stamped(h, w, MergedScalars(m, o, still), now) == m
  {
    var m := Stamped(h, v, MergedScalars(v.s, o, noDial), now);
    MergeFields(v.s, o, noDial);
    MergeFields(m, o, still);
  }

  /** mergeObservations field by field. */
  lemma MergeFields(d: Scalars, o: Scalars, noDial: bool)
    ensures MergedScalars(d, o, noDial) ==
            d.(firstSeenAt := if d.firstSeenAt == 0 then o.firstSeenAt else d.firstSeenAt,
               lastSeenAt := if d.lastSeenAt == 0 then o.lastSeenAt else d.lastSeenAt,
               test := if d.test.testedAt == 0 then o.test else d.test,
               geo := if d.geo.country == "" then o.geo else d.geo,
               verified := if noDial then o.verified else d.verified)
  {
  }

  /** Importing twice is importing once, so a batch that repeats a node does no harm. */
  lemma ImportSettles(h: Hash, c: Catalog, v: NodeV, now: int)
    ensures Imported(h, c, Imported(h, c, v, now), now) == Imported(h, c, v, now)
  {
    var w := Imported(h, c, v, now);
    ImportKeepsKey(h, c, v, now);
    var o := WithKey(h, c, KeyV(h, v));
    if o.Some? {
      MergeSettles(h, o.value, v, w, now);
    }
  }

  lemma ImportKeepsKey(h: Hash, c: Catalog, v: NodeV, now: int)
    ensures KeyV(h, Imported(h, c, v, now)) == KeyV(h, v)
  {
  }

  lemma MergeSettles(h: Hash, o: NodeV, v: NodeV, w: NodeV, now: int)
    requires w == ImportedWith(h, Some(o), v, now) && KeyV(h, w) == KeyV(h, v)
    ensures ImportedWith(h, Some(o), w, now) == w
  {
    MergeFields(v.s, o.s, Dial !in v.own);
    OwnMergeSettles(v.own, o.own, v.s.test.testedAt == 0, w.s.test.testedAt == 0);
    ScalarMergeSettles(h, v, w, o.s, Dial !in v.own, Dial !in w.own, now);
  }

  /** Position `i` is the last of the batch to name `id`. */
  ghost predicate LastNaming(h: Hash, batch: seq<Option<NodeV>>, id: string, i: int) {
    && 0 <= i < |batch| && batch[i].Some? && IdV(h, batch[i].value) == id
    && forall j :: i < j < |batch| ==> !Names(h, batch[j], id)
  }

  predicate Names(h: Hash, v: Option<NodeV>, id: string) {
    v.Some? && IdV(h, v.value) == id
  }

  /** An id is stored exactly when the batch names it, and the last entry naming it decides. */
  lemma {:induction false} ReplacedEntry(h: Hash, c: Catalog, batch: seq<Option<NodeV>>, now: int, id: string)
      returns (i: int)
    ensures id in Replaced(h, c, batch, now) <==> i >= 0
    ensures i >= 0 ==>
              && LastNaming(h, batch, id, i)
              && Replaced(h, c, batch, now)[id] == Imported(h, c, batch[i].value, now)
    ensures i < 0 ==> forall j :: 0 <= j < |batch| ==> !Names(h, batch[j], id)
    decreases |batch|
  {
    i := -1;
    if batch != [] {
      var k := |batch| - 1;
      if Names(h, batch[k], id) {
        i := k;
      } else {
        i := ReplacedEntry(h, c, batch[..k], now, id);
        assert forall j :: 0 <= j < k ==> batch[..k][j] == batch[j];
      }
    }
  }

  lemma ImportedNamed(h: Hash, c: Catalog, v: NodeV, now: int)
    ensures Imported(h, c, v, now).s.id == IdV(h, v) && IdV(h, Imported(h, c, v, now)) == IdV(h, v)
  {
  }

  lemma ReplacedIndexed(h: Hash, c: Catalog, batch: seq<Option<NodeV>>, now: int)
    ensures Indexed(h, Replaced(h, c, batch, now))
  {
    var d := Replaced(h, c, batch, now);
    forall id | id in d ensures d[id].s.id == id && IdV(h, d[id]) == id {
      var i := ReplacedEntry(h, c, batch, now, id);
      ImportedNamed(h, c, batch[i].value, now);
    }
  }

  /** A re-imported node that was not tested again keeps what was observed of it. */
  lemma ObservationsSurvive(h: Hash, c: Catalog, v: NodeV, now: int)
    requires WithKey(h, c, KeyV(h, v)).Some? && v.s.test.testedAt == 0
    ensures var o, r := WithKey(h, c, KeyV(h, v)).value, Imported(h, c, v, now);
            && r.s.test == o.s.test && Same(Quality, r, o) && Same(Tags, r, o)
            && (Dial !in v.own ==> Same(Dial, r, o) && r.s.verified == o.s.verified)
            && (v.s.firstSeenAt == 0 && o.s.firstSeenAt != 0 ==> r.s.firstSeenAt == o.s.firstSeenAt)
            && r.s.conn == v.s.conn && Same(Extra, r, v) && Same(Sources, r, v)
  {
  }

  /** An imported node keeps what it brings itself, and takes over from the stored one only what it lacks. */
  lemma ImportTakesOver(h: Hash, c: Catalog, v: NodeV, now: int)
    requires WithKey(h, c, KeyV(h, v)).Some?
    ensures var o, r := WithKey(h, c, KeyV(h, v)).value, Imported(h, c, v, now);
            && (v.s.test.testedAt != 0 ==> r.s.test == v.s.test && Same(Quality, r, v) && Same(Tags, r, v))
            && r.s.geo == (if v.s.geo.country != "" then v.s.geo else o.s.geo)
            && Same(Ai, r, if Ai in v.own then v else o) && Same(Purity, r, if Purity in v.own then v else o)
            && Same(Dial, r, if Dial in v.own then v else o)
            && r.s.verified == (if Dial in v.own then v.s.verified else o.s.verified)
            && (v.s.firstSeenAt != 0 ==> r.s.firstSeenAt == v.s.firstSeenAt)
            && (v.s.lastSeenAt != 0 ==> r.s.lastSeenAt == v.s.lastSeenAt)
            && (v.s.lastSeenAt == 0 && o.s.lastSeenAt != 0 ==> r.s.lastSeenAt == o.s.lastSeenAt)
            && (v.s.firstSeenAt == 0 && o.s.firstSeenAt == 0 ==> r.s.firstSeenAt == now)
            && r.s.name == v.s.name && r.s.rawUri == v.s.rawUri
  {
    MergeFields(v.s, WithKey(h, c, KeyV(h, v)).value.s, Dial !in v.own);
  }

  /** A node the store did not know is stored as it is, dated and named. */
  lemma ImportNew(h: Hash, c: Catalog, v: NodeV, now: int)
    requires WithKey(h, c, KeyV(h, v)).None?
    ensures var r := Imported(h, c, v, now);
            && r.own == v.own && r.s.test == v.s.test && r.s.geo == v.s.geo && r.s.verified == v.s.verified
            && r.s.conn == v.s.conn && r.s.name == v.s.name && r.s.rawUri == v.s.rawUri
            && r.s.firstSeenAt == (if v.s.firstSeenAt == 0 then now else v.s.firstSeenAt)
            && r.s.lastSeenAt == (if v.s.lastSeenAt == 0 then now else v.s.lastSeenAt)
  {
  }

  /** Writing a complete listing of a replaced store back, in any order and with repeats, changes nothing. */
  lemma ReplaceOwnListing(h: Hash, c: Catalog, batch: seq<Option<NodeV>>, now: int,
                          listing: seq<Option<NodeV>>, later: int)
    requires now != 0
    requires forall i :: 0 <= i < |listing| && listing[i].Some? ==>
               listing[i].value.s.id in Replaced(h, c, batch, now)
               && listing[i].value == Replaced(h, c, batch, now)[listing[i].value.s.id]
    requires forall id :: id in Replaced(h, c, batch, now) ==> Some(Replaced(h, c, batch, now)[id]) in listing
    ensures Replaced(h, Replaced(h, c, batch, now), listing, later) == Replaced(h, c, batch, now)
  {
    var d := Replaced(h, c, batch, now);
    forall id | id in d ensures Settled(h, d[id]) && d[id].s.id == id {
      var i := ReplacedEntry(h, c, batch, now, id);
      ImportedSettled(h, c, batch[i].value, now);
    }
    SettledListing(h, d, listing, later);
  }

  lemma ImportedSettled(h: Hash, c: Catalog, v: NodeV, now: int)
    requires now != 0
    ensures Settled(h, Imported(h, c, v, now)) && Imported(h, c, v, now).s.id == IdV(h, v)
  {
  }

  lemma SettledListing(h: Hash, d: Catalog, listing: seq<Option<NodeV>>, later: int)
    requires forall id :: id in d ==> Settled(h, d[id]) && d[id].s.id == id
    requires forall i :: 0 <= i < |listing| && listing[i].Some? ==>
               listing[i].value.s.id in d && listing[i].value == d[listing[i].value.s.id]
    requires forall id :: id in d ==> Some(d[id]) in listing
    ensures Replaced(h, d, listing, later) == d
  {
    var e := Replaced(h, d, listing, later);
    forall id ensures id in e ==> id in d && e[id] == d[id] {
      var i := ReplacedEntry(h, d, listing, later, id);
      if id in e {
        SettledStays(h, d, listing[i].value, later);
      }
    }
    forall id | id in d ensures id in e {
      var last := ReplacedEntry(h, d, listing, later, id);
      var i :| 0 <= i < |listing| && listing[i] == Some(d[id]);
      assert Names(h, listing[i], id);
    }
  }

  /** As Replaced leaves a node: dated, and named after its connection. */
  ghost predicate Settled(h: Hash, v: NodeV) {
    v.s.firstSeenAt != 0 && v.s.lastSeenAt != 0 && v.s.id == IdV(h, v) && v.s.fingerprint == KeyV(h, v)
  }

  lemma SettledStays(h: Hash, d: Catalog, v: NodeV, later: int)
    requires Settled(h, v) && v.s.id in d && d[v.s.id] == v
    ensures Imported(h, d, v, later) == v
  {
  }

  lemma UpsertIndexed(h: Hash, c: Catalog, v: NodeV)
    requires Indexed(h, c)
    ensures Indexed(h, Upserted(h, c, v))
  {
    var n := Named(h, v);
    assert IdV(h, n) == n.s.id;
    if n.s.id in c {
      RefreshContinues(c[n.s.id], n);
    }
  }

  lemma {:induction false} UpsertsIndexed(h: Hash, c: Catalog, batch: seq<NodeV>)
    requires Indexed(h, c)
    ensures Indexed(h, UpsertedAll(h, c, batch))
    decreases |batch|
  {
    if batch != [] {
      UpsertsIndexed(h, c, batch[..|batch| - 1]);
      UpsertIndexed(h, UpsertedAll(h, c, batch[..|batch| - 1]), batch[|batch| - 1]);
    }
  }

  lemma UpsertedSnoc(h: Hash, c: Catalog, batch: seq<NodeV>, i: nat)
    requires i < |batch|
    ensures UpsertedAll(h, c, batch[..i + 1]) == Upserted(h, UpsertedAll(h, c, batch[..i]), batch[i])
  {
    assert batch[..i + 1][..i] == batch[..i];
  }

  lemma RefreshTwice(o: NodeV, n: NodeV)
    ensures Refreshed(Refreshed(o, n), n) == Refreshed(o, n)
  {
    var w := Written(n.own.Keys);
    TakenTwice(w, w, o.own, n.own);
    assert w + w == w;
  }

  lemma RefreshSelf(n: NodeV)
    ensures Refreshed(n, n) == n
  {
    assert Taken(Written(n.own.Keys), n.own, n.own) == n.own;
  }

  /** Observing the same thing twice is observing it once. */
  lemma UpsertIdempotent(h: Hash, c: Catalog, v: NodeV)
    ensures Upserted(h, Upserted(h, c, v), v) == Upserted(h, c, v)
  {
    var n := Named(h, v);
    if n.s.id in c {
      RefreshTwice(c[n.s.id], n);
    } else {
      RefreshSelf(n);
    }
    assert Upserted(h, Upserted(h, c, v), v).Keys == Upserted(h, c, v).Keys;
  }

  /** `n` is `o` observed further: what identifies it is untouched and nothing known of it is erased. */
  ghost predicate Continues(o: NodeV, n: NodeV) {
    && n.s.id == o.s.id && n.s.conn == o.s.conn && n.s.name == o.s.name && n.s.fingerprint == o.s.fingerprint
    && Same(Extra, n, o) && Same(Sources, n, o)
    && (o.s.geo.country != "" ==> n.s.geo.country != "") && (o.s.firstSeenAt != 0 ==> n.s.firstSeenAt != 0)
    && (Dial in o.own ==> Dial in n.own) && (Tags in o.own ==> Tags in n.own)
  }

  lemma RefreshContinues(o: NodeV, n: NodeV)
    ensures Continues(o, Refreshed(o, n))
  {
  }

  /** What of the entry `r` the observation `v` decides. */
  ghost predicate Records(r: NodeV, v: NodeV) {
    && r.s.test.alive == v.s.test.alive && r.s.test.latency == v.s.test.latency && r.s.test.error == v.s.test.error
    && r.s.test.testedAt == v.s.test.testedAt && r.s.test.score == v.s.test.score && r.s.test.grade == v.s.test.grade
    && r.s.test.qualityFailures == v.s.test.qualityFailures && r.s.test.successStreak == v.s.test.successStreak
    && r.s.test.nextTestAt == v.s.test.nextTestAt
    && Same(Quality, r, v) && Same(Ai, r, v)
    && (Tags in v.own ==> Same(Tags, r, v)) && (Purity in v.own ==> Same(Purity, r, v))
    && (Dial in v.own ==> Same(Dial, r, v) && r.s.verified == v.s.verified)
    && (v.s.verified ==> r.s.verified)
    && (v.s.geo.country != "" ==> r.s.geo.country == v.s.geo.country)
    && (v.s.geo.city != "" ==> r.s.geo.city == v.s.geo.city) && (v.s.geo.isp != "" ==> r.s.geo.isp == v.s.geo.isp)
    && (v.s.geo.asn != "" ==> r.s.geo.asn == v.s.geo.asn)
    && (v.s.geo.entryType != "" ==> r.s.geo.entryType == v.s.geo.entryType)
    && (v.s.rawUri != "" ==> r.s.rawUri == v.s.rawUri)
    && (v.s.firstSeenAt != 0 ==> r.s.firstSeenAt == v.s.firstSeenAt)
    && (v.s.lastSeenAt != 0 ==> r.s.lastSeenAt == v.s.lastSeenAt)
  }

  lemma RefreshRecords(o: NodeV, n: NodeV)
    ensures Records(Refreshed(o, n), n)
  {
  }

  /** What the observation `v` has nothing to say about stays as it was. */
  ghost predicate Leaves(o: NodeV, r: NodeV, v: NodeV) {
    && (Tags !in v.own ==> Same(Tags, r, o)) && (Purity !in v.own ==> Same(Purity, r, o))
    && (Dial !in v.own ==> Same(Dial, r, o) && (o.s.verified ==> r.s.verified))
    && (Dial !in v.own && !v.s.verified ==> r.s.verified == o.s.verified)
    && (v.s.geo.country == "" ==> r.s.geo.country == o.s.geo.country)
    && (v.s.geo.city == "" ==> r.s.geo.city == o.s.geo.city) && (v.s.geo.isp == "" ==> r.s.geo.isp == o.s.geo.isp)
    && (v.s.geo.asn == "" ==> r.s.geo.asn == o.s.geo.asn)
    && (v.s.geo.entryType == "" ==> r.s.geo.entryType == o.s.geo.entryType)
    && (v.s.rawUri == "" ==> r.s.rawUri == o.s.rawUri)
    && (v.s.firstSeenAt == 0 ==> r.s.firstSeenAt == o.s.firstSeenAt)
    && (v.s.lastSeenAt == 0 ==> r.s.lastSeenAt == o.s.lastSeenAt)
  }

  lemma RefreshLeaves(o: NodeV, n: NodeV)
    ensures Leaves(o, Refreshed(o, n), n)
  {
  }

  lemma NamedRecords(h: Hash, r: NodeV, v: NodeV)
    ensures Records(r, Named(h, v)) <==> Records(r, v)
  {
  }

  /** One upsert: the entry named records the observation and keeps the rest, and no other entry changes. */
  lemma UpsertMeans(h: Hash, c: Catalog, v: NodeV)
    ensures var d, id := Upserted(h, c, v), IdV(h, v);
            && d.Keys == c.Keys + {id} && Records(d[id], v)
            && (if id in c then Leaves(c[id], d[id], v) else d[id] == v.(s := v.s.(id := id)))
            && forall k :: k in c && k != id ==> d[k] == c[k]
  {
    var n := Named(h, v);
    NamedRecords(h, Upserted(h, c, v)[IdV(h, v)], v);
    if n.s.id in c {
      RefreshRecords(c[n.s.id], n);
      RefreshLeaves(c[n.s.id], n);
    }
  }

  /** After any batch, an entry records the last batch node that names it, or is what it was if none does. */
  lemma {:induction false} UpsertedEntry(h: Hash, c: Catalog, batch: seq<NodeV>, id: string) returns (i: int)
    ensures -1 <= i < |batch| && forall j :: i < j < |batch| ==> IdV(h, batch[j]) != id
    ensures i >= 0 ==> IdV(h, batch[i]) == id && id in UpsertedAll(h, c, batch)
                       && Records(UpsertedAll(h, c, batch)[id], batch[i])
    ensures i < 0 ==> (id in UpsertedAll(h, c, batch) <==> id in c)
    ensures i < 0 && id in c ==> UpsertedAll(h, c, batch)[id] == c[id]
    decreases |batch|
  {
    i := -1;
    if batch != [] {
      var k := |batch| - 1;
      var before := UpsertedAll(h, c, batch[..k]);
      UpsertMeans(h, before, batch[k]);
      if IdV(h, batch[k]) == id {
        i := k;
      } else {
        i := UpsertedEntry(h, c, batch[..k], id);
        assert forall j :: 0 <= j < k ==> batch[..k][j] == batch[j];
      }
    }
  }

  /** Upserts forget no node. */
  lemma {:induction false} UpsertsContinue(h: Hash, c: Catalog, batch: seq<NodeV>, id: string)
    requires id in c
    ensures id in UpsertedAll(h, c, batch) && Continues(c[id], UpsertedAll(h, c, batch)[id])
    decreases |batch|
  {
    if batch != [] {
      var rest := batch[..|batch| - 1];
      UpsertsContinue(h, c, rest, id);
      RefreshContinues(UpsertedAll(h, c, rest)[id], Named(h, batch[|batch| - 1]));
    }
  }

  /** A node seen as passing stays verified until a dial result says otherwise. */
  lemma {:induction false} VerifiedUntilDialed(h: Hash, c: Catalog, batch: seq<NodeV>, id: string)
    requires id in c && c[id].s.verified
    requires forall i :: 0 <= i < |batch| && IdV(h, batch[i]) == id ==> Dial !in batch[i].own || batch[i].s.verified
    ensures id in UpsertedAll(h, c, batch) && UpsertedAll(h, c, batch)[id].s.verified
    decreases |batch|
  {
    if batch != [] {
      VerifiedUntilDialed(h, c, batch[..|batch| - 1], id);
    }
  }
}
