/**
 The zone database and the dynamic-update engine (RFC 2136): record lookup with
 its wildcard fallback, the checks before an update, and what one update RR may
 do to the database.  Queries return rows in no particular order, so one RR's
 effect is a relation between databases.
 */
module UpdateModel {
  import opened Names

  // ---------- Types, classes and codes on the wire ----------

  const A: nat := 1
  const NS: nat := 2
  const CNAME: nat := 5
  const HINFO: nat := 13
  const MX: nat := 15
  const TXT: nat := 16
  const RP: nat := 17
  const AAAA: nat := 28
  const LOC: nat := 29
  const SRV: nat := 33
  const NAPTR: nat := 35
  const DS: nat := 43
  const SSHFP: nat := 44
  const DHCID: nat := 49
  const HTTPS: nat := 65
  const ANY: nat := 255
  const CAA: nat := 257
  const SOA: nat := 6

  const CLASS_IN: nat := 1
  const CLASS_NONE: nat := 254
  const CLASS_ANY: nat := 255

  datatype Rcode =
    | NoError | FormErr | ServFail | NxDomain | Refused | YxDomain | YxRrset | NxRrset | NotAuth | NotZone

  // ---------- The database ----------

  /** The record models, one table each. */
  datatype Model =
    | Address | DynamicAddress | Cname | Redirect | Mx | Ns | Txt | Srv | Caa | Naptr
    | Sshfp | Ds | Aname | Loc | Hinfo | Rp | Https | Dhcid | GithubPages | Dnskey

  /** Record data with the RR type it is served as: an address row is A or AAAA. */
  datatype Rdata = Rdata(rtype: nat, data: string)

  datatype Service = Service(scheme: string, port: nat)

  datatype Row = Row(id: nat, zone: nat, model: Model, name: string, ttl: nat, rdata: Rdata, service: Service)

  type Database = set<Row>

  datatype Zone = Zone(id: nat, root: Name)

  const DEFAULT_SERVICE: Service := Service("https", 443)

  /** The model that update RRs of a type are stored in. */
  function ModelOf(rtype: nat): Option<Model> {
    if rtype == A || rtype == AAAA then Some(Address)
    else if rtype == MX then Some(Mx)
    else if rtype == NS then Some(Ns)
    else if rtype == TXT then Some(Txt)
    else if rtype == SRV then Some(Srv)
    else if rtype == CAA then Some(Caa)
    else if rtype == NAPTR then Some(Naptr)
    else if rtype == DS then Some(Ds)
    else if rtype == LOC then Some(Loc)
    else if rtype == HINFO then Some(Hinfo)
    else if rtype == RP then Some(Rp)
    else if rtype == DHCID then Some(Dhcid)
    else if rtype == CNAME then Some(Cname)
    else None
  }

  predicate Updatable(m: Model) {
    match m
    case Address | Mx | Ns | Txt | Srv | Caa | Naptr | Ds | Loc | Hinfo | Rp | Cname | Dhcid => true
    case _ => false
  }

  /** Models that `any_records` looks at by plain name; HTTPS records are looked at by service. */
  predicate Covered(m: Model) {
    match m
    case Address | DynamicAddress | Redirect | Mx | Ns | Txt | Srv | Caa => true
    case Naptr | Sshfp | Ds | Aname | Loc | Hinfo | Rp => true
    case _ => false
  }

  /** Each updatable row holds data of its own model's type, and ids are unique. */
  ghost predicate WellFormed(db: Database) {
    && (forall r :: r in db && Updatable(r.model) ==> ModelOf(r.rdata.rtype) == Some(r.model))
    && (forall r, s :: r in db && s in db && r.id == s.id ==> r == s)
  }

  // ---------- Names ----------

  function Wildcard(rel: Name): Name {
    if rel == [] then rel else ["*"] + rel[1..]
  }

  // ---------- Looking records up ----------

  function At(db: Database, zone: nat, model: Model, name: string): set<Row> {
    set r | r in db && r.zone == zone && r.model == model && r.name == name
  }

  /** `find_records`: the rows at the name, or else the rows at its wildcard. */
  function FindRecords(db: Database, zone: nat, model: Model, rel: Name): set<Row> {
    var exact := At(db, zone, model, Join(rel));
    if exact != {} then exact else At(db, zone, model, Join(Wildcard(rel)))
  }

  predicate AllDigits(s: string) {
    forall i :: 0 <= i < |s| ==> '0' <= s[i] <= '9'
  }

  function Decimal(s: string): nat
    requires AllDigits(s)
  {
    if s == "" then 0 else Decimal(s[..|s| - 1]) * 10 + (s[|s| - 1] - '0') as nat
  }

  /** `parse_https_record_name`: `_port._scheme.name` names a service at `name`. */
  function HttpsName(rel: Name): (Service, Name) {
    if |rel| >= 2 && |rel[0]| >= 2 && rel[0][0] == '_' && |rel[1]| >= 1 && rel[1][0] == '_' && AllDigits(rel[0][1..])
    then (Service(rel[1][1..], Decimal(rel[0][1..])), if |rel| > 2 then rel[2..] else ["@"])
    else (DEFAULT_SERVICE, rel)
  }

  predicate HttpsAt(db: Database, zone: nat, rel: Name) {
    var (service, name) := HttpsName(rel);
    exists r :: r in db && r.zone == zone && r.model == Https && r.service == service
                && (r.name == Join(name) || r.name == Join(Wildcard(name)))
  }

  predicate AnyRecords(db: Database, zone: nat, rel: Name, includeCname: bool) {
    || (exists r :: r in db && r.zone == zone && (Covered(r.model) || (includeCname && r.model == Cname))
                    && (r.name == Join(rel) || r.name == Join(Wildcard(rel))))
    || HttpsAt(db, zone, rel)
  }

  predicate AnyRecordType(db: Database, zone: nat, rel: Name, rtype: nat) {
    if rtype == A || rtype == AAAA then
      exists r :: r in FindRecords(db, zone, Address, rel) && r.rdata.rtype == rtype
    else if rtype == HTTPS then
      var (service, name) := HttpsName(rel);
      exists r :: r in At(db, zone, Https, Join(name)) && r.service == service
    else if rtype == SSHFP then At(db, zone, Sshfp, Join(rel)) != {}
    else if rtype == DHCID || ModelOf(rtype).None? then false
    else At(db, zone, ModelOf(rtype).value, Join(rel)) != {}
  }

  // ---------- Requests ----------

  /**
   A resource record of the update message.  `data` is None for empty rdata.
   The last three fields say what the model layer does with it: whether the
   conversion from the RR, the refresh of an existing row and the saving of a
   new one go through or raise.
   */
  datatype RR = RR(
    name: Name, rtype: nat, rclass: nat, ttl: nat, data: Option<string>,
    converts: bool, refreshes: bool, saves: bool)

  datatype KeyType = Unlimited | AcmeDns01 | OtherType

  /** An update secret; restrictTo is None for the zone root. */
  datatype Key = Key(zone: nat, keyType: KeyType, restrictTo: Option<Name>)

  datatype Permission = Allowed | Denied | Raised

  function CanManage(key: Key, rtype: nat, rel: Name): Permission {
    if key.restrictTo.Some? && !IsSuffix(key.restrictTo.value, rel) then Denied
    else
      match key.keyType
      case Unlimited => Allowed
      case AcmeDns01 => if rel == [] then Raised
                        else if rel[0] == "_acme-challenge" && rtype == TXT then Allowed else Denied
      case OtherType => Denied
  }

  // ---------- What one update RR does ----------

  datatype Outcome = Continue | Stop(rcode: Rcode)

  function Rel(zone: Zone, rr: RR): Name {
    StripSuffix(rr.name, zone.root)
  }

  /** The name that the update loop searches for: neither "@" at the apex nor lower case. */
  function SearchName(zone: Zone, rr: RR): string {
    Join(Rel(zone, rr))
  }

  function WildName(zone: Zone, rr: RR): string {
    Join(Wildcard(Rel(zone, rr)))
  }

  /** The name that a row gets from the RR. */
  function StoredName(zone: Zone, rr: RR): string {
    if Lower(rr.name) == Lower(zone.root) then "@" else Join(Lower(Rel(zone, rr)))
  }

  function RdataOf(rr: RR): Rdata
    requires rr.data.Some?
  {
    Rdata(rr.rtype, rr.data.value)
  }

  function Refresh(r: Row, zone: Zone, rr: RR): Row
    requires rr.data.Some?
  {
    r.(name := StoredName(zone, rr), ttl := rr.ttl, rdata := RdataOf(rr))
  }

  function NewRow(id: nat, zone: Zone, rr: RR): Row
    requires rr.data.Some? && ModelOf(rr.rtype).Some?
  {
    Row(id, zone.id, ModelOf(rr.rtype).value, StoredName(zone, rr), rr.ttl, RdataOf(rr), DEFAULT_SERVICE)
  }

  predicate Conflict(db: Database, zone: Zone, rr: RR) {
    if rr.rtype == CNAME then AnyRecords(db, zone.id, Rel(zone, rr), false)
    else AnyRecordType(db, zone.id, Rel(zone, rr), CNAME)
  }

  /** The rows whose data equals the RR's. */
  function Matching(db: Database, zone: Zone, rr: RR): set<Row>
    requires ModelOf(rr.rtype).Some? && rr.data.Some?
  {
    set r | r in FindRecords(db, zone.id, ModelOf(rr.rtype).value, Rel(zone, rr)) && r.rdata == RdataOf(rr)
  }

  ghost predicate Refreshed(db: Database, zone: Zone, rr: RR, db': Database)
    requires ModelOf(rr.rtype).Some? && rr.data.Some?
  {
    exists m :: m in Matching(db, zone, rr) && db' == db - {m} + {Refresh(m, zone, rr)}
  }

  ghost predicate Created(db: Database, zone: Zone, rr: RR, db': Database)
    requires ModelOf(rr.rtype).Some? && rr.data.Some?
  {
    exists id :: (forall r :: r in db ==> r.id != id) && db' == db + {NewRow(id, zone, rr)}
  }

  /** Section 3.4.2.2 of RFC 2136: add the RR, or refresh the row that already holds its data. */
  ghost predicate Adds(db: Database, zone: Zone, rr: RR, out: Outcome, db': Database)
    requires ModelOf(rr.rtype).Some?
  {
    if !rr.converts || rr.data.None? then db' == db && out == Stop(ServFail)
    else if Conflict(db, zone, rr) then db' == db && out == Continue
    else if Matching(db, zone, rr) != {} then
      if rr.refreshes then Refreshed(db, zone, rr, db') && out == Continue
      else db' == db && out == Stop(ServFail)
    else if rr.saves then Created(db, zone, rr, db') && out == Continue
    else db' == db && out == Stop(ServFail)
  }

  /** The rows that a deletion of a whole RRset selects. */
  function RrsetRows(db: Database, zone: Zone, rr: RR): set<Row>
    requires ModelOf(rr.rtype).Some?
  {
    set r | r in FindRecords(db, zone.id, ModelOf(rr.rtype).value, Rel(zone, rr)) && r.rdata.rtype == rr.rtype
  }

  /** The rows that a deletion of one RR selects. */
  function OneRows(db: Database, zone: Zone, rr: RR): set<Row>
    requires ModelOf(rr.rtype).Some?
  {
    if rr.data.Some? then Matching(db, zone, rr) else {}
  }

  /** The rows that a deletion of all RRsets at a name selects. */
  function AllRows(db: Database, zone: Zone, rr: RR): set<Row> {
    set r | r in db && Updatable(r.model) && r in FindRecords(db, zone.id, r.model, Rel(zone, rr))
  }

  function Authorise(key: Key, rtype: nat, rel: Name): Option<Rcode> {
    match CanManage(key, rtype, rel)
    case Allowed => None
    case Denied => Some(NotAuth)
    case Raised => Some(ServFail)
  }

  /** A deletion that stopped at row r, which the key may not manage, after deleting the rows gone. */
  ghost predicate StoppedAt(db: Database, key: Key, rel: Name, rows: set<Row>, r: Row, gone: set<Row>, rcode: Rcode,
                            db': Database)
  {
    && r in rows && Authorise(key, r.rdata.rtype, rel) == Some(rcode)
    && gone <= rows && r !in gone
    && (forall g :: g in gone ==> Authorise(key, g.rdata.rtype, rel).None?)
    && db' == db - gone
  }

  /** Deleting rows one by one, asking before each whether the key may manage it. */
  ghost predicate DeletesAsking(db: Database, key: Key, rel: Name, rows: set<Row>, out: Outcome, db': Database) {
    if forall r :: r in rows ==> Authorise(key, r.rdata.rtype, rel).None? then
      db' == db - rows && out == Continue
    else
      out.Stop? && exists r, gone :: StoppedAt(db, key, rel, rows, r, gone, out.rcode, db')
  }

  ghost predicate DeletesAll(db: Database, key: Key, zone: Zone, rr: RR, out: Outcome, db': Database) {
    DeletesAsking(db, key, Rel(zone, rr), AllRows(db, zone, rr), out, db')
  }

  ghost predicate Applies(db: Database, key: Key, zone: Zone, rr: RR, out: Outcome, db': Database) {
    var auth := Authorise(key, rr.rtype, Rel(zone, rr));
    if rr.rclass == CLASS_ANY && rr.rtype == ANY then DeletesAll(db, key, zone, rr, out, db')
    else if rr.rclass == CLASS_IN || rr.rclass == CLASS_ANY || (rr.rclass == CLASS_NONE && ModelOf(rr.rtype).Some?) then
      if auth.Some? then db' == db && out == Stop(auth.value)
      else if ModelOf(rr.rtype).None? then db' == db && out == Continue
      else if rr.rclass == CLASS_IN then Adds(db, zone, rr, out, db')
      else if rr.rclass == CLASS_ANY then db' == db - RrsetRows(db, zone, rr) && out == Continue
      else db' == db - OneRows(db, zone, rr) && out == Continue
    else db' == db && out == Continue
  }

  // ---------- The update loop ----------

  /** The loop over the update section: RR after RR until one of them stops it. */
  ghost predicate Loop(db: Database, key: Key, zone: Zone, rrs: seq<RR>, out: Outcome, db': Database)
    decreases |rrs|
  {
    if rrs == [] then db' == db && out == Continue
    else
      exists o, mid ::
        && Applies(db, key, zone, rrs[0], o, mid)
        && (if o == Continue then Loop(mid, key, zone, rrs[1..], out, db') else db' == mid && out == o)
  }
}
