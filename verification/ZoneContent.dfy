/**
 What a zone serves, by owner name: the RRs of the rows that updates can change,
 those of the rows of all other models, and those that every zone file opens with.
 */
module ZoneContent {
  import opened Names
  import opened UpdateModel

  // ---------- What a stored text stands for ----------

  /** The owner of a row, relative to its zone: "@" is the apex, other texts are split at dots. */
  function Denote(text: string): Name {
    if text == "@" then [] else Split(text)
  }

  /** An owner that some text stands for: no dot inside a label, and not the single label "@". */
  predicate Nameable(owner: Name) {
    owner != ["@"] && Dotless(owner)
  }

  function TextOf(owner: Name): string {
    if owner == [] then "@" else Join(owner)
  }

  lemma DenoteInjective(s: string, t: string)
    requires Denote(s) == Denote(t)
    ensures s == t
  {
    JoinSplit(s);
    JoinSplit(t);
  }

  lemma DenoteNameable(text: string)
    ensures Nameable(Denote(text))
  {
    SplitDotless(text);
    JoinSplit(text);
  }

  /** The nameable owners are exactly those that a text stands for. */
  lemma DenoteTextOf(owner: Name)
    requires Nameable(owner)
    ensures Denote(TextOf(owner)) == owner
  {
    if owner != [] {
      SplitJoin(owner);
      SplitOne("@");
    }
  }

  // ---------- Rows that updates can change ----------

  datatype ZoneRr = ZoneRr(owner: Name, rdata: Rdata, ttl: nat)

  predicate InView(r: Row, zone: nat) {
    r.zone == zone && Updatable(r.model)
  }

  function RrOf(r: Row): ZoneRr {
    ZoneRr(Denote(r.name), r.rdata, r.ttl)
  }

  ghost function View(db: Database, zone: nat): set<ZoneRr> {
    set r | r in db && InView(r, zone) :: RrOf(r)
  }

  predicate SameRr(z: ZoneRr, owner: Name, rdata: Rdata) {
    z.owner == owner && z.rdata == rdata
  }

  ghost predicate Has(v: set<ZoneRr>, owner: Name, rdata: Rdata) {
    exists z :: z in v && SameRr(z, owner, rdata)
  }

  /** The same RRs, with TTLs left aside. */
  ghost predicate Agree(v: set<ZoneRr>, w: set<ZoneRr>) {
    forall owner, rdata :: Has(v, owner, rdata) <==> Has(w, owner, rdata)
  }

  // ---------- Rows of the other models ----------

  const DNSKEY: nat := 48
  const CDS: nat := 59
  const CDNSKEY: nat := 60
  const HEADER_TTL: nat := 86400

  predicate IsAddress(rtype: nat) {
    rtype == A || rtype == AAAA
  }

  /** The types that rows of a model are written out as, where updates cannot change them. */
  predicate WrittenAs(m: Model, rtype: nat) {
    match m
    case DynamicAddress | Aname | GithubPages => IsAddress(rtype)
    case Redirect => IsAddress(rtype) || rtype == CAA
    case Sshfp => rtype == SSHFP
    case Https => rtype == HTTPS
    case Dnskey => rtype == DNSKEY
    case _ => false
  }

  /**
   What the zone file holds beside the rows that updates can change: the data of
   its header; the data of the other models' rows (addresses, cached answers,
   keys); and, for an ANAME that points into its own zone, the text of the name
   whose address rows are written out in its place.
   */
  datatype Serving = Serving(header: set<Rdata>, data: Row -> set<Rdata>, aliasOf: Row -> Option<string>)

  predicate OpensZone(rtype: nat) {
    rtype == SOA || rtype == NS || rtype == CDS || rtype == CDNSKEY
  }

  /** What every zone file opens with, at the apex. */
  ghost function Header(sv: Serving): set<ZoneRr> {
    set d | d in sv.header && OpensZone(d.rtype) :: ZoneRr([], d, HEADER_TTL)
  }

  /** An HTTPS row of another service than the default is served under the service's name. */
  function ServedName(r: Row): string {
    if r.model == Https && r.service != DEFAULT_SERVICE then
      "_" + DecimalText(r.service.port) + "._" + r.service.scheme + if r.name == "@" then "" else "." + r.name
    else r.name
  }

  ghost function Fixed(sv: Serving, db: Database, zone: nat): set<ZoneRr> {
    set r, d | r in db && r.zone == zone && d in sv.data(r) && WrittenAs(r.model, d.rtype)
      :: ZoneRr(Denote(ServedName(r)), d, r.ttl)
  }

  /** The answer that an ANAME row gives for an address of the name it points at. */
  function AnswerOf(r: Row, z: ZoneRr): ZoneRr {
    ZoneRr(Denote(ServedName(r)), z.rdata, r.ttl)
  }

  predicate AliasFor(sv: Serving, r: Row, owner: Name) {
    r.model == Aname && sv.aliasOf(r).Some? && Denote(sv.aliasOf(r).value) == owner
  }

  /** The answers of ANAMEs into their own zone, which has the RRs v. */
  ghost function Aliased(sv: Serving, db: Database, zone: nat, v: set<ZoneRr>): set<ZoneRr> {
    set r, z | r in db && r.zone == zone && z in v && Answers(sv, r, z) :: AnswerOf(r, z)
  }

  /** The row is an ANAME that answers with the address z. */
  predicate Answers(sv: Serving, r: Row, z: ZoneRr) {
    IsAddress(z.rdata.rtype) && AliasFor(sv, r, z.owner)
  }

  /** What the header and the other models serve beside the RRs v. */
  ghost function Beside(sv: Serving, db: Database, zone: nat, v: set<ZoneRr>): set<ZoneRr> {
    Header(sv) + Fixed(sv, db, zone) + Aliased(sv, db, zone, v)
  }

  ghost function Rest(sv: Serving, db: Database, zone: nat): set<ZoneRr> {
    Beside(sv, db, zone, View(db, zone))
  }

  /** Everything the zone serves. */
  ghost function Full(sv: Serving, db: Database, zone: nat): set<ZoneRr> {
    View(db, zone) + Rest(sv, db, zone)
  }

  /** The two databases hold the same rows of the models that updates cannot change. */
  ghost predicate SameOthers(db: Database, db': Database) {
    forall r: Row :: !Updatable(r.model) ==> (r in db <==> r in db')
  }

  lemma BesideSame(sv: Serving, db: Database, db': Database, zone: nat, v: set<ZoneRr>)
    requires SameOthers(db, db')
    ensures Beside(sv, db, zone, v) == Beside(sv, db', zone, v)
  {
  }

  lemma BesideGrows(sv: Serving, db: Database, zone: nat, v: set<ZoneRr>, w: set<ZoneRr>)
    requires v <= w
    ensures Beside(sv, db, zone, v) <= Beside(sv, db, zone, w)
  {
  }

  /** The other models' RRs depend on which addresses the zone has, not on their TTLs. */
  lemma BesideAgrees(sv: Serving, db: Database, zone: nat, v: set<ZoneRr>, w: set<ZoneRr>)
    requires Agree(v, w)
    ensures Beside(sv, db, zone, v) == Beside(sv, db, zone, w)
  {
    AliasedWithin(sv, db, zone, v, w);
    AliasedWithin(sv, db, zone, w, v);
  }

  lemma AliasedWithin(sv: Serving, db: Database, zone: nat, v: set<ZoneRr>, w: set<ZoneRr>)
    requires Agree(v, w)
    ensures Aliased(sv, db, zone, v) <= Aliased(sv, db, zone, w)
  {
    forall y | y in Aliased(sv, db, zone, v)
      ensures y in Aliased(sv, db, zone, w)
    {
      var r, z :| r in db && r.zone == zone && z in v && Answers(sv, r, z) && y == AnswerOf(r, z);
      assert SameRr(z, z.owner, z.rdata);
      assert Has(v, z.owner, z.rdata);
      var z' :| z' in w && SameRr(z', z.owner, z.rdata);
      assert Answers(sv, r, z') && AnswerOf(r, z') == y;
    }
  }

  /** What is served beside v and not beside w is an ANAME's answer with an address of v that w has not. */
  lemma BesideDiffers(sv: Serving, db: Database, zone: nat, v: set<ZoneRr>, w: set<ZoneRr>, z: ZoneRr)
    returns (r: Row, y: ZoneRr)
    requires z in Beside(sv, db, zone, v) && z !in Beside(sv, db, zone, w)
    ensures r in db && r.zone == zone && y in v && y !in w && Answers(sv, r, y) && z == AnswerOf(r, y)
  {
    r, y :| r in db && r.zone == zone && y in v && Answers(sv, r, y) && z == AnswerOf(r, y);
    assert y in w ==> AnswerOf(r, y) in Aliased(sv, db, zone, w);
  }

  /** They are never CNAMEs, and a text stands for their owner. */
  lemma BesideShape(sv: Serving, db: Database, zone: nat, v: set<ZoneRr>, z: ZoneRr)
    requires z in Beside(sv, db, zone, v)
    ensures z.rdata.rtype != CNAME && Nameable(z.owner)
  {
    if z in Header(sv) {
      DenoteNameable("@");
    } else if z in Fixed(sv, db, zone) {
      var r, d :| r in db && r.zone == zone && d in sv.data(r) && WrittenAs(r.model, d.rtype)
                  && z == ZoneRr(Denote(ServedName(r)), d, r.ttl);
      DenoteNameable(ServedName(r));
    } else {
      var r, y :| r in db && r.zone == zone && y in v && Answers(sv, r, y) && z == AnswerOf(r, y);
      DenoteNameable(ServedName(r));
    }
  }

  lemma ViewShape(db: Database, zone: nat, z: ZoneRr)
    requires z in View(db, zone)
    ensures Nameable(z.owner)
  {
    var r :| r in db && InView(r, zone) && RrOf(r) == z;
    DenoteNameable(r.name);
  }
}
