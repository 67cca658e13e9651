# HexDNS: verified models of its DNS algorithms

HexDNS hosts DNS zones. Most of the service is a web application, but six of its
components carry real protocol logic, and this project models those six in Dafny
and proves what they are for:

- **the response cache** (`dns-cache`): lookups, fetches, background
  revalidations, the periodic updater and the flush listener as one transition
  system whose events interleave freely (`LruMap`, `CacheModel`, `CacheProof`,
  `CacheAnswers`, `CacheRuns`, `CacheTasks`);
- **dynamic update and lookup** (`grpc.py`): the checks of RFC 2136, the update
  loop with its wildcard fallback, zone choice, and CNAME following between zones
  (`UpdateModel`, `UpdateProof`, `ZoneContent`, `Rfc2136`, `Rfc2136Cases`,
  `Rfc2136Loop`, `Prerequisites`, `UpdateServer`, `ZoneChoice`, `Lookup`,
  `AnswerSection`);
- **zone transfer from both ends**, with its chained TSIG MACs (`Transfer`, `TsigStream`);
- **the zone-file parser**, a token automaton with sticky state, and the record
  lines that the generator writes for it (`ZoneFile`, `ZoneLines`,
  `ZoneRefinement`, `ZoneSets`, `ZoneRender`);
- **the SVCB text and wire codec** of RFC 9460 (`SvcbText`, `SvcbErrors`,
  `SvcbBuffer`, `SvcbPrint`, `SvcbWire`);
- **two arithmetic codecs**: reverse-DNS names and the LOC size byte
  (`ReverseNames`, `LocSize`).

`Names` and `Octets` hold what these share. `dafny verify dfyconfig.toml` checks
the whole project.

## How the models are built

The cache is a transition system without history variables. One event is one
section of a task between two points at which another task can run, clock
readings are separate events, and every statement about the past (an upstream
reply, a stamp, a miss) is read off the trace. `CacheTasks` holds the task bodies
as methods on shared objects and ties them to the events.

The database is a set of rows. A query returns rows in no particular order, so
what one update RR does is a relation between databases, and so is a whole
message; `UpdateServer.Server` is the imperative engine, proved to stay within
that relation. Owner names are kept as the code keeps them: the loop searches for
the RR's name as written, and stores it in lower case with `@` for the apex. The
RFC's side of each comparison speaks of owner names, label by label: the text `@`
stands for the apex, any other text is split at its dots; and it speaks of all RRs
that the zone file holds (`ZoneContent.Full`), the SOA, NS, CDS and CDNSKEY records
that it opens with included. What these and the rows of the models outside the reach
of updates hold is a parameter, except that an ANAME into its own zone answers with
the address rows found there.

Parsers that consume a mutable buffer or a token stream are methods with loops,
proved equal to functions, and the properties are proved of the functions. Network,
clock, HMAC, name parsing and record-data parsing are parameters.

## Where the code and its purpose part

Several properties that one would expect hold only under a condition. Each is stated
with the exact condition, and the failing side is a theorem too.

- A flush of a key does not always forget it: a reply already in hand, or a copy
  already read, comes back (`CacheRuns.FlushExact`). A flush for type ANY clears
  the eighteen known types and no others (`CacheTasks.KeysToClear`).
- CNAME exclusion holds for names that the update loop searches for under the
  spelling it stores, and fails for every other one: the apex, and names with an
  upper-case letter (`UpdateProof.CnameExclusion`,
  `UpdateProof.NotCanonicalLosesExclusion`). `any_records` never looks at DHCID,
  GitHub Pages and DNSKEY records, so a CNAME goes in beside them
  (`UpdateProof.CnameBesideDhcid`, `UpdateProof.CnameBesideUnlooked`).
- The update loop follows RFC 2136 except in the ways that `Rfc2136.StepIsRfc`
  lists. The wildcard fallback renames or deletes the wildcard's row
  (`Rfc2136Cases.WildcardRenamed`, `Rfc2136Cases.WildcardDeleted`); a name `@` below the apex, or one with a dot in
  a label, is taken for another (`Rfc2136Cases.ApexDeleted`,
  `Rfc2136Cases.DottedDeleted`); deletions overlook what other models serve, such as
  SSHFP, HTTPS, dynamic-address, redirect, ANAME and GitHub Pages records
  (`Rfc2136Cases.OtherModelOverlooked`, `Rfc2136Cases.NeglectfulMessage`); an ANAME into its own zone follows the
  address rows it points at (`Rfc2136Cases.AliasWithdrawn`); a refresh reaches one of
  several copies of a record (`Rfc2136Loop.LoopIsRfc`); and a CNAME is added beside
  another (`Rfc2136Cases.SecondCname`).
- RRset prerequisites never see a DHCID record, what other models serve or what the
  zone file opens with, see nothing stored for a name with an upper-case letter, take the wildcard's addresses
  for those of a name that has none, and mistake the same names as above
  (`Prerequisites.PrerequisiteIsRfc`, `Prerequisites.HeaderMisjudged`); whether a name
  is in use is misjudged in the same manner (`Prerequisites.NameInUseIsRfc`,
  `Prerequisites.HttpsUnnoticed`, `Prerequisites.HeaderUnnoticed`).
- Following CNAMEs between zones ends exactly when no cycle is reachable
  (`Lookup.EndsExactly`, `Lookup.TwoZoneCycle`).
- A key limited to ACME challenges reaches the TXT row of the wildcard
  (`UpdateProof.AcmeKeyTakesWildcard`).
- A zone file may lack its final end of line, unless it stops inside a directive:
  then the shorter file is accepted and the complete one refused (`ZoneFile.FinalEol`).
- The prescan of an update answers YXRRSET for a class that the RFC calls a format error
  (`UpdateServer.PrescanIsRfc`).
- The printer of opaque SVCB values writes unpadded escapes and bare special
  characters, and an empty value is not read at all, so it reads back only for
  non-empty strings of safe bytes (`SvcbPrint.PrintRoundTripExact`);
  and a network's reverse name covers the network only when its prefix ends at a
  label boundary (`ReverseNames.NamesCoverNetworkExactly`).

## Model

| member | source | states |
|---|---|---|
| `CacheProof.ServedFromCacheIsUpstream` | dns-cache/src/main.rs:141-195 | In every interleaving, an answer served from the cache has the asker's id, question and recursion flag, and the code, sections and EDNS of one upstream reply to a query with exactly that key; the reply was stamped later, at the expiry check the clock was at most 43200 s past that stamp, and a fetch of the key that is not new is started with the answer if and only if the clock was more than 300 s past the reply's other stamp |
| `CacheAnswers.CollectedAnswer` | dns-cache/src/main.rs:198-202 | A lookup that collects a fetch started it itself by a miss; it fails if and only if that fetch failed, and is otherwise answered with the message that the fetch heard, marked authoritative |
| `CacheAnswers.PollExactly` | dns-cache/src/main.rs:148-155 | A waiting lookup goes on at a step if and only if it polls there and its key is not in flight |
| `CacheAnswers.InFlightExactly` | dns-cache/src/main.rs:89-129 | A key is in flight if and only if a fetch of it has begun since the key was last released |
| `CacheAnswers.ReadsAfterWait` | dns-cache/src/main.rs:148-157 | No lookup reads the cache before it has seen its key out of flight |
| `CacheAnswers.SameKey` | dns-cache/src/main.rs:137-146 | Two queries share a key exactly when class, type and the DNSSEC bit agree, and the names up to case |
| `CacheAnswers.RoundExactly` | dns-cache/src/main.rs:604-635 | Between its lock and its sleep the updater looks at every entry of the cache it locked, and starts fetches of exactly the keys that were past their soft expiry at the steps at which it looked, in order |
| `CacheAnswers.StaleExactly` | dns-cache/src/main.rs:608-610 | Those keys are the ones with an entry whose soft expiry lay before the clock at the step that looked at it |
| `CacheAnswers.ScanCollects` | dns-cache/src/main.rs:608-627 | They are what the updater's loop collects from the same clock readings |
| `CacheProof.ServFailStoredOnlyAfterMiss` | dns-cache/src/main.rs:113-124 | Whenever a server failure is stored, an earlier step of the run was a lookup of that key that found it absent or hard expired and started the storing fetch |
| `CacheProof.NewFetchMissed` | dns-cache/src/main.rs:162-199 | Every fetch marked as new was started by such a miss |
| `CacheProof.FlushedIsForgotten` | dns-cache/src/main.rs:572-576 | After a flush that finds no reply and no copy in hand, whatever is served for the key was heard from the upstream after the flush |
| `CacheRuns.FlushExact` | dns-cache/src/main.rs:572-576 | A run that flushes a key and later serves it without hearing from the upstream exists if and only if some fetch had a reply still to store or some lookup a copy still to serve |
| `CacheRuns.OldReplyComesBack` | dns-cache/src/main.rs:113-126 | Builds the run in which a reply in hand is stored after the flush and served |
| `CacheRuns.OldCopyComesBack` | dns-cache/src/main.rs:157-195 | Builds the run in which a lookup serves the entry it read before the flush |
| `CacheRuns.MissServes` | dns-cache/src/main.rs:131-203 | For every request and every upstream reply there is a run that hears the reply and later serves the key from the cache |
| `CacheRuns.MissStores` | dns-cache/src/main.rs:113-124 | The reply to a first miss is stored whatever its code, a server failure included |
| `CacheProof.Reachable` | dns-cache/src/main.rs:78-203 | Every reachable state has distinct, folded keys within capacity, fetches whose key is their query's, and a fetch holding each key in flight |
| `CacheProof.StepInFlight` | dns-cache/src/main.rs:89-126 | No step of any task leaves a key in the in-flight set without a fetch between its insert and its remove |
| `CacheRuns.NothingOutstanding` | dns-cache/src/main.rs:89-126 | When no fetch is between its insert and its remove, the in-flight set is empty |
| `CacheRuns.InFlightDrains` | dns-cache/src/main.rs:89-155 | From any reachable state, a key that pollers wait on is released within four steps of a fetch that holds it |
| `CacheRuns.FetchesOverlap` | dns-cache/src/main.rs:148-155 | For every request there is a run in which two fetches of its key overlap and the first to finish releases the key under the second |
| `CacheProof.UpdaterKey` | dns-cache/src/main.rs:612-625 | The query that the updater rebuilds from a cached key has that same key |
| `CacheTasks.KeysToClear` | dns-cache/src/main.rs:523-568 | The keys cleared are exactly those of the message's name, class and type, with and without DNSSEC |
| `CacheTasks.CollectStale` | dns-cache/src/main.rs:608-627 | The updater collects exactly the keys whose entry was past its soft expiry when the scan reached it, in order |
| `CacheTasks.Shared.FetchAndInsert` | dns-cache/src/main.rs:78-129 | Without interruption, a fetch leaves the cache with the stamped reply unless it failed, or was a server failure for an old entry; releases the key; and returns the reply |
| `CacheTasks.UninterruptedFetch` | dns-cache/src/main.rs:78-129 | From every state, the events of a fetch run without interruption leave the cache, the in-flight set and the outcome that the method leaves, and no other task changed |
| `LruMap.PutKeeps` | dns-cache/src/main.rs:123 | Storing binds the key, keeps keys distinct and the size within capacity, and loses at most the least recently used entry, and that only for a new key in a full cache |
| `LruMap.TouchKeeps` | dns-cache/src/main.rs:157 | Reading reorders the entries and changes none |
| `LruMap.MovesToFront` | dns-cache/src/main.rs:157 | The entry read comes first, and the others keep their order |
| `LruMap.NewKeyEvictsLast` | dns-cache/src/main.rs:123 | A new key in a full cache evicts the last entry, and the others keep their order behind it |
| `LruMap.LruCache.Get` | dns-cache/src/main.rs:157 | Returns the entry's value and makes it most recent |
| `LruMap.LruCache.Insert` | dns-cache/src/main.rs:123 | The new entries are those of `Put`, and the key is found with the new value |
| `LruMap.LruCache.PopAll` | dns-cache/src/main.rs:572-576 | Clearing a list of keys removes exactly their entries |
| `UpdateProof.CnameExclusion` | hexdns_django/dns_grpc/grpc.py:1199-1306 | Over any sequence of messages, partly applied ones and renamed wildcard rows included, no name comes to hold a CNAME beside a record that `any_records` covers |
| `UpdateProof.AddKeepsExclusive` | hexdns_django/dns_grpc/grpc.py:1211-1216 | The conflict check before an addition is enough for the row that is then stored |
| `UpdateProof.NotCanonicalLosesExclusion` | hexdns_django/dns_grpc/grpc.py:1202-1262 | For every name stored under another spelling than searched for, a CNAME and an address added one after the other end up at one name |
| `UpdateProof.CnameBesideDhcid` | hexdns_django/dns_grpc/grpc.py:154-238 | At every canonical name, a DHCID record and then a CNAME are both accepted from updates |
| `UpdateProof.CnameBesideUnlooked` | hexdns_django/dns_grpc/grpc.py:154-238 | A CNAME is accepted beside any row of a model that `any_records` never looks at: DHCID, GitHub Pages or DNSKEY |
| `UpdateProof.UnlookedAreTheRest` | hexdns_django/dns_grpc/grpc.py:154-238 | These three are all the models that `any_records` passes over, beside CNAME itself |
| `UpdateProof.LoopFrame` | hexdns_django/dns_grpc/grpc.py:1182-1306 | In any run of the loop, a row gone was of the zone, of a model for an RR's type and at its name or wildcard; a row gained has the zone, model, name, data and TTL of an addition; and the key may manage either, however far a refused deletion got |
| `UpdateProof.PermissionExactly` | hexdns_django/dns_grpc/grpc.py:1182-1197 | A key may manage a record if and only if the relative name ends in its restriction and it is an unlimited key, or an ACME key with a TXT record under `_acme-challenge` |
| `UpdateProof.RestrictionHolds` | hexdns_django/dns_grpc/grpc.py:1182-1197 | In any run of the loop with any key, a row gone or gained came through an RR whose relative name ends in the key's restriction |
| `UpdateProof.OtherKeyIdle` | hexdns_django/dns_grpc/grpc.py:1189-1197 | A key of neither known type changes nothing |
| `UpdateProof.UnlimitedRuns` | hexdns_django/dns_grpc/grpc.py:1182-1306 | An unlimited key is never stopped for want of permission by RRs under its restriction |
| `UpdateProof.OutsideStopped` | hexdns_django/dns_grpc/grpc.py:1182-1197 | Outside its restriction every key is stopped with NOTAUTH at once and the RR changes nothing |
| `UpdateProof.AdditionStops` | hexdns_django/dns_grpc/grpc.py:1201-1262 | An addition stops if and only if its data does not convert, or no conflict makes it ignored and refreshing the row it matches or saving the new one fails; and then with SERVFAIL and nothing changed |
| `UpdateProof.AcmeKeyConfined` | hexdns_django/dns_grpc/grpc.py:1182-1197 | Whatever messages it signs, a key limited to ACME challenges changes TXT rows only, through RRs named `_acme-challenge` under its restriction; rows it brings bear the RR's name, rows it takes that name or its wildcard |
| `UpdateProof.AcmeKeyTakesWildcard` | hexdns_django/dns_grpc/grpc.py:138-152 | Deleting a challenge that is not there deletes the wildcard's TXT row, with such a key |
| `UpdateProof.StepWellFormed` | hexdns_django/dns_grpc/models.py:706-721 | Rows keep data of their own model's type and unique ids |
| `Rfc2136.StepIsRfc` | hexdns_django/dns_grpc/grpc.py:1201-1306 | One authorised RR takes everything that the zone serves to what sections 3.4.2.2 to 3.4.2.4 of RFC 2136 say, CNAME additions included, if and only if it does not stray. A deletion strays by overlooking an RR of another model, capturing a row of another owner, or taking an ANAME's answer; an addition by being misplaced, by being ignored or stored against the RFC, by leaving an old copy, by renaming the wildcard's row so that its RR or an ANAME's answer goes, or by giving an ANAME a new answer |
| `Rfc2136.StepAlwaysRfc` | hexdns_django/dns_grpc/grpc.py:1201-1306 | The same judged before the step: every outcome is the RFC's, whichever row a query returns first and whatever id a new row gets, if and only if the database lets none stray |
| `Rfc2136Loop.LoopIsRfc` | hexdns_django/dns_grpc/grpc.py:1153-1306 | On a zone without wildcard names, for every list of authorised RRs below the apex, every run of the loop takes all that the zone serves to the fold of the RFC's transformer if and only if no RR takes effect on a record stored twice, with a copy whose TTL differs, that the message does not delete; no RR concerns an RR of another model that is still served; and no ANAME gains or loses an answer |
| `Rfc2136Loop.LoopAgrees` | hexdns_django/dns_grpc/grpc.py:1153-1306 | Whatever is stored twice, every run ends with the RFC's RRs, TTLs left aside, if and only if the message mislays nothing that other models serve |
| `Rfc2136Loop.EveryRunServes` | hexdns_django/dns_grpc/grpc.py:1153-1306 | Every run serves the RFC's RRs on the rows that updates change, up to TTLs, and beside them the same RRs of the other models |
| `Rfc2136Loop.FoldSplits` | hexdns_django/dns_grpc/grpc.py:1201-1306 | The RFC's transformer over a whole message takes the zone apart into the rows that updates change and the RRs beside them that are spared |
| `Rfc2136Loop.SparedExactly` | hexdns_django/dns_grpc/grpc.py:1201-1306 | The spared RRs are those that no RR of the message concerns, each judged in the zone that the RFC has made by then |
| `Rfc2136Loop.NeglectExactly` | hexdns_django/dns_grpc/grpc.py:1201-1306 | The message leaves beside the rows what the RFC leaves, if and only if no RR concerns what is still served and no ANAME's answer comes or goes |
| `Rfc2136Loop.StaleDiverges` | hexdns_django/dns_grpc/grpc.py:1222-1228 | From a stale copy there is a run of the whole loop that ends with an RR that the RFC's zone has not |
| `Rfc2136.DeletionStep` | hexdns_django/dns_grpc/grpc.py:1264-1306 | A deletion of an RRset, of all RRsets at a name or of one RR is the RFC's if and only if no other model still serves what it is aimed at, no row of another owner goes that nothing else serves, and no ANAME loses its answer |
| `Rfc2136.AdditionStep` | hexdns_django/dns_grpc/grpc.py:1201-1262 | An addition of any type, ignored or stored, is the RFC's if and only if it does not stray, each way by its own cause |
| `Rfc2136.SpreadExactly` | hexdns_django/dns_grpc/tasks.py:196-219 | What comes with a stored row beside its own RR is the answer of an ANAME that points at its owner |
| `Rfc2136.UprootExactly` | hexdns_django/dns_grpc/grpc.py:1222-1228 | What a stored row takes away, beside what it replaces, is the RR of a row of another name that was renamed, or the answer of an ANAME that points there |
| `Rfc2136.RefreshStep` | hexdns_django/dns_grpc/grpc.py:1222-1228 | Refreshing a row of the RR's owner is the RFC's addition if and only if no other copy, in a row or from another model, has another TTL |
| `Rfc2136Cases.RenameStep` | hexdns_django/dns_grpc/grpc.py:1222-1228 | An addition that renames the wildcard's row is the RFC's if and only if the wildcard's RR is still served, no ANAME loses or gains an answer, and no other model serves the record with another TTL |
| `Rfc2136Cases.WildcardRenamed` | hexdns_django/dns_grpc/grpc.py:138-152 | Adding the wildcard's address for a name below it takes it away from the wildcard |
| `Rfc2136Cases.CreateStep` | hexdns_django/dns_grpc/grpc.py:1230-1262 | An addition that finds nothing and is stored under its own owner is the RFC's if and only if no other model serves the record with another TTL and no ANAME comes to answer with it |
| `Rfc2136.ConflictIsRfc` | hexdns_django/dns_grpc/grpc.py:1212-1216 | Where a text stands for the owner, the code ignores an addition of another type exactly when the zone serves a CNAME at the owner |
| `Rfc2136Cases.WildcardDeleted` | hexdns_django/dns_grpc/grpc.py:138-152 | Deleting the address RRset of any name that has none deletes the wildcard's row |
| `Rfc2136Cases.DuplicateOutlivesRefresh` | hexdns_django/dns_grpc/grpc.py:1222-1228 | Where two copies of a record both have another TTL than the RR, no outcome is the RFC's, whichever copy is refreshed |
| `Rfc2136Cases.OtherModelOverlooked` | hexdns_django/dns_grpc/grpc.py:1266-1278 | Deleting all RRsets of a name leaves whatever a row of another model serves there |
| `Rfc2136Cases.NeglectfulMessage` | hexdns_django/dns_grpc/grpc.py:1266-1278 | A message that does so has a run that ends with another zone than the RFC's |
| `Rfc2136Cases.DynamicAddressOverlooked` | hexdns_django/dns_grpc/grpc.py:1280-1291 | Deleting the A RRset of a name leaves its dynamic address |
| `Rfc2136Cases.AliasWithdrawn` | hexdns_django/dns_grpc/tasks.py:196-219 | Deleting the address of a name takes it from an ANAME of the zone that points there |
| `Rfc2136Cases.SecondCname` | hexdns_django/dns_grpc/grpc.py:1211-1262 | A second CNAME is stored beside the first, which the RFC replaces |
| `Rfc2136Cases.ApexDeleted` | hexdns_django/dns_grpc/grpc.py:1280-1291 | Deleting the address RRset of the name `@` below the apex deletes the apex's |
| `Rfc2136Cases.DottedDeleted` | hexdns_django/dns_grpc/grpc.py:1280-1291 | Deleting the address RRset of a one-label name with a dot in its label deletes that of the two-label name |
| `ZoneContent.DenoteTextOf` | hexdns_django/dns_grpc/models.py:648-654 | The owners other than `@` whose labels hold no dot are those that a stored text stands for |
| `Rfc2136.StoredDenotes` | hexdns_django/dns_grpc/models.py:648-654 | The name stored for an RR stands for its owner in lower case, `@` for the apex, wherever a text does |
| `ZoneContent.BesideAgrees` | hexdns_django/dns_grpc/tasks.py:188-258 | What is served beside the rows that updates change depends on which addresses the zone has, and not on their TTLs |
| `ZoneContent.BesideDiffers` | hexdns_django/dns_grpc/tasks.py:196-219 | Where it differs between two states of the zone, the difference is an ANAME's answer with an address that only one of them has |
| `ZoneContent.BesideShape` | hexdns_django/dns_grpc/tasks.py:120-363 | The header and the other models never serve a CNAME, and always serve under an owner that a text stands for |
| `Prerequisites.PrerequisiteIsRfc` | hexdns_django/dns_grpc/grpc.py:986-1037 | For every owner, the apex included, and every type that updates can add, RRset existence in all that the zone serves is decided as sections 3.2.1 and 3.2.2 of RFC 2136 say, if and only if it is not misjudged: an RRset unseen because it is DHCID, the name has an upper-case letter or only the header or other models serve it; addresses of the wildcard taken for the name's; or a name that no text stands for |
| `Prerequisites.PrerequisiteCode` | hexdns_django/dns_grpc/grpc.py:986-1047 | A prerequisite gets the very code of section 3.2.5 of RFC 2136, judged against all that the zone serves, if and only if what it asks is not misjudged |
| `Prerequisites.OtherTypesSeen` | hexdns_django/dns_grpc/grpc.py:240-298 | Of the types without a model for updates none is ever seen, but SSHFP by its rows at the name as searched for |
| `Prerequisites.HeaderMisjudged` | hexdns_django/dns_grpc/tasks.py:120-155 | The NS RRset that every zone file opens with is there and not seen |
| `Prerequisites.NameInUseIsRfc` | hexdns_django/dns_grpc/grpc.py:154-238 | For every owner, "name is in use" is decided as the RFC says of all that the zone serves, if and only if it is not misjudged: a used name goes unnoticed, because of an upper-case letter or because every row that serves it is a DHCID, GitHub Pages or DNSKEY row or an HTTPS row that the search misses, and nothing else is counted; or a free name has the wildcard, an HTTPS row or an idle row counted |
| `Prerequisites.UnnoticedSource` | hexdns_django/dns_grpc/grpc.py:154-238 | A used lower-case name that goes unnoticed is used by the header, at the apex, or by a row of one of those kinds |
| `Prerequisites.HttpsMissedExactly` | hexdns_django/dns_grpc/grpc.py:668-689 | The HTTPS search misses a row under its own name if and only if the row is of the default service and the name reads as a service's |
| `Prerequisites.HttpsUnnoticed` | hexdns_django/dns_grpc/grpc.py:227-236 | A name that only such a row uses counts as free |
| `Prerequisites.HeaderUnnoticed` | hexdns_django/dns_grpc/tasks.py:120-155 | The apex of an empty zone counts as free, although its file opens with an SOA |
| `Prerequisites.OtherModelMisjudged` | hexdns_django/dns_grpc/grpc.py:245-253 | A record that a row of another model serves is there and not seen |
| `Prerequisites.DhcidUnnoticed` | hexdns_django/dns_grpc/grpc.py:154-238 | A name that only a DHCID record uses counts as free |
| `Prerequisites.UpperCaseMisjudged` | hexdns_django/dns_grpc/grpc.py:240-298 | An address stored at `www` is not seen for `WWW` |
| `Prerequisites.StepFolded` | hexdns_django/dns_grpc/models.py:615-654 | Updates keep stored names in lower case |
| `UpdateServer.Server.HandleUpdate` | hexdns_django/dns_grpc/grpc.py:776-1309 | A message changes the database, or is answered without error, only if it is an UPDATE of class IN and type SOA, its MAC verified under a known algorithm, the time is within the fudge, and the key stored under the TSIG's name less the zone's belongs to the last zone with that root; and then it does what the loop does. Any other message leaves the database and gets the code of the first check to fail, prerequisites and prescan included |
| `UpdateServer.AuthExactly` | hexdns_django/dns_grpc/grpc.py:779-978 | The checks of the header, the TSIG and the zone pass exactly for authentic messages, stated by the message, the keys, the zones and the clock alone |
| `UpdateServer.AuthCode` | hexdns_django/dns_grpc/grpc.py:779-978 | A message that is not posed as a signed update is REFUSED; any other that is not authentic is NOTAUTH |
| `UpdateServer.PrescanIsRfc` | hexdns_django/dns_grpc/grpc.py:1117-1151 | The prescan of an update RR gives the code of section 3.4.1.3 of RFC 2136 if and only if its class is the zone's, ANY or NONE, where the code answers YXRRSET for FORMERR, and its type is one that is stored, unless the RR is refused for another cause |
| `UpdateServer.PrescanDiffers` | hexdns_django/dns_grpc/grpc.py:1117-1151 | Where it differs, the code is YXRRSET for another class and FORMERR for a type that is not stored; nothing outside the zone gets through |
| `UpdateServer.Server.Check` | hexdns_django/dns_grpc/grpc.py:779-1151 | The checks pass exactly for admitted messages, and otherwise give the first failing check's code |
| `UpdateServer.Server.CheckPrerequisites` | hexdns_django/dns_grpc/grpc.py:986-1047 | The first prerequisite that fails decides |
| `UpdateServer.Server.Prescan` | hexdns_django/dns_grpc/grpc.py:1117-1151 | The first RR that fails the prescan decides |
| `UpdateServer.Server.FindZone` | hexdns_django/dns_grpc/grpc.py:963-969 | Finds the last zone whose root is the name |
| `UpdateServer.Server.UpdateLoop` | hexdns_django/dns_grpc/grpc.py:1200-1306 | Runs within the loop relation, stopping at the first RR that stops it |
| `UpdateServer.Server.ApplyRr` | hexdns_django/dns_grpc/grpc.py:1201-1306 | One RR changes the database within the relation for its class and type |
| `UpdateServer.Server.AddRr` | hexdns_django/dns_grpc/grpc.py:1211-1262 | Ignores on conflict, refreshes one row with the same data, or creates a row under an unused id |
| `UpdateServer.Server.DeleteAllRrsets` | hexdns_django/dns_grpc/grpc.py:1266-1278 | Deletes all rows at the name over thirteen models, or stops at the first that the key may not manage, having deleted only rows it may |
| `UpdateServer.LoopNext` | hexdns_django/dns_grpc/grpc.py:1200-1306 | Extending a run of the loop by one RR is a run of the loop, whether it goes on or stops |
| `ZoneChoice.FindZone` | hexdns_django/dns_grpc/grpc.py:116-135 | The first match by descending text length is a matching zone with most labels; the relative name and the root make up the query name, with "@" for the root itself; an inactive owner gives no zone |
| `ZoneChoice.ClosestDecides` | hexdns_django/dns_grpc/grpc.py:116-135 | With one zone per root, the zone with most labels alone decides, active or not |
| `ZoneChoice.MoreLabelsIsLonger` | hexdns_django/dns_grpc/grpc.py:119 | Of two roots that end the same name, the one with more labels has the longer text |
| `Lookup.AnswerIsChain` | hexdns_django/dns_grpc/grpc.py:374-393 | The answers are CNAMEs each owned by the target before, from the query name on, and then only records of the queried type owned by the last target |
| `Lookup.Response.Lookup` | hexdns_django/dns_grpc/grpc.py:471-485 | The records at the name each once under the query name, or the CNAME followed by the answers for its target |
| `AnswerSection.SectionExactly` | hexdns_django/dns_grpc/grpc.py:374-393 | An answered lookup gives the model's rows at the name, or else at its wildcard, each once with its data and TTL; without any, the record of a CNAME row there, and behind it what the target's lookup answers if its closest zone and relative name are others, exactly when one is there and no row occupies the name; and otherwise nothing |
| `AnswerSection.CnameOnlyUnoccupied` | hexdns_django/dns_grpc/grpc.py:383-393 | An answer section begins with a CNAME only if no row that `any_records` covers, HTTPS rows of the name's service included, bears the name or its wildcard; and a name so occupied without rows of the queried model is answered with nothing |
| `AnswerSection.ServiceNameExactly` | hexdns_django/dns_grpc/grpc.py:668-689 | A name is a service's exactly when it starts with a decimal port and a scheme behind underscores; the service is at the labels after them, or at the apex |
| `Lookup.Response.FollowCname` | hexdns_django/dns_grpc/grpc.py:374-390 | Appends the CNAME and, across zones, the answers for its target |
| `Lookup.NextNode` | hexdns_django/dns_grpc/grpc.py:386-388 | Every hop changes both the zone and the relative name |
| `Lookup.EndsExactly` | hexdns_django/dns_grpc/grpc.py:374-393 | The recursion ends at some depth, whichever CNAMEs it follows, if and only if no cycle of cross-zone CNAMEs is reachable from its start; and then the number of CNAME rows bounds it |
| `Lookup.TwoZoneCycle` | hexdns_django/dns_grpc/grpc.py:374-393 | Two zones with an alias each into the other: no depth is enough |
| `Lookup.AnswersExactly` | hexdns_django/dns_grpc/grpc.py:374-393 | Some lookup answers at some depth if and only if a walk of CNAMEs leads to a node with records, without CNAMEs, or with one that is not followed |
| `Transfer.TransferEndToEnd` | hexdns_django/dns_grpc/management/commands/transfer-secondary.py:75-103 | From a zone's stream grouped into messages in any way, a secondary stops with exactly two apex SOAs and the SOA followed by the IN-class body in order if the root is the zone's origin, and aborts otherwise |
| `Transfer.ParsedZoneTransfers` | axfr/src/main.rs:123-167 | The same for every zone file that parses |
| `Transfer.SendZone` | axfr/src/main.rs:141-368 | Sends the SOA, every other record set once, and the SOA again, one record a message, the first and the last with the record of the SOA set; or a single failure without an SOA |
| `Transfer.SecondaryZone.Sync` | hexdns_django/dns_grpc/management/commands/transfer-secondary.py:71-119 | Replaces records and serial together if exactly two apex SOAs were seen; otherwise leaves both and marks the error |
| `Transfer.ReceiveExactly` | hexdns_django/dns_grpc/management/commands/transfer-secondary.py:77-98 | The receive loop completes exactly when some message brings the second apex SOA before the connection breaks, messages with an error code adding nothing, and it ends with what the messages up to that one brought |
| `Transfer.KeptExactly` | hexdns_django/dns_grpc/management/commands/transfer-secondary.py:91-96 | Of a run of records exactly those of class IN are kept, in order, less the SOAs from the second apex SOA on |
| `Transfer.GroupingIrrelevant` | hexdns_django/dns_grpc/management/commands/transfer-secondary.py:77-98 | The receive loop gives the same result for every grouping of a stream whose second SOA is last |
| `Transfer.CompleteNeedsTwo` | hexdns_django/dns_grpc/management/commands/transfer-secondary.py:77-98 | A completed transfer has seen as many apex SOAs as the answers it read hold |
| `TsigStream.SignTransfer` | axfr/src/main.rs:318-368 | For every transfer length a verifier following the MAC rules of section 5.3.1 of RFC 8945 accepts the signed messages, and all are sent unless one cannot be encoded |
| `TsigStream.TsigContext.SignMessage` | axfr/src/main.rs:371-437 | The MAC covers the previous MAC, the message, and the full variables in the first message or the timers in a later one; and becomes the previous MAC |
| `TsigStream.MacBytes` | axfr/src/main.rs:371-398 | Byte by byte, what every MAC of an accepted stream is computed over: length and prior MAC, message, and the name, class, zero TTL, algorithm, timers, error and empty other data in the first message or the timers alone in a later one |
| `TsigStream.LastMacBindsAll` | axfr/src/main.rs:371-437 | Two accepted transfers with the same nth MAC agree on every message up to the nth, in content and signing time, or show two HMAC inputs with one MAC among them |
| `TsigStream.OneMacBinds` | axfr/src/main.rs:386-407 | Two messages with one MAC are the same and follow the same MAC, unless their HMAC inputs differ |
| `ZoneFile.ParseTokens` | axfr/src/parser.rs:191-333 | The token loop computes the automaton's run |
| `ZoneFile.ParsedZoneKeyed` | axfr/src/parser.rs:421-437 | A successful parse holds every record under its own owner and type and at most one SOA for each owner |
| `ZoneFile.WordMeaning` | axfr/src/parser.rs:253-282 | A bare word is a time if it reads as one, else a class if it is alphabetic and one, else a type |
| `ZoneFile.CaseIgnored` | axfr/src/parser.rs:253-282 | Classes and types are read without regard to case |
| `ZoneFile.ExpireAsUnsigned` | axfr/src/parser.rs:400 | A negative expire value becomes the unsigned integer of the same 32 bits |
| `ZoneFile.FinalEol` | axfr/src/parser.rs:317-330 | A final end of line changes neither records, origin nor error, unless the input stops inside a directive: then the input is accepted without it and refused with it |
| `ZoneRefinement.ParserRefinesLines` | axfr/src/parser.rs:191-437 | The parser succeeds exactly when the tokens form well-formed lines without a second SOA for an owner, and then each record has the owner last stated, resolved where it was stated, the class last stated, and the TTL last stated or else the first SOA's minimum; an SOA has its expire value |
| `ZoneRefinement.TokensAreLines` | axfr/src/parser.rs:198-330 | The automaton is the line-by-line evaluation of the lines its tokens form |
| `ZoneRefinement.LinesMean` | axfr/src/parser.rs:336-437 | Carrying sticky state forwards gives what looking back for the last statement gives |
| `ZoneSets.InsertionExactly` | axfr/src/parser.rs:421-437 | Inserting any records, SOAs included, succeeds if and only if no two SOAs have the same owner, and then the sets hold exactly these records, each under its owner and type and in order |
| `ZoneSets.ParsedExactly` | axfr/src/parser.rs:191-437 | A parse succeeds if and only if the lines are well formed and no two of their SOAs have the same owner, and then the zone holds exactly the lines' records |
| `ZoneSets.SoaLineTransfers` | axfr/src/parser.rs:421-437 | A parsed zone has an SOA to transfer if and only if a line is an SOA of its origin, and it is that line's |
| `ZoneSets.InsertionGroups` | axfr/src/parser.rs:421-437 | Inserting records other than SOAs never fails and keeps the order within each owner and type |
| `ZoneRender.RenderRoundTrip` | hexdns_django/dns_grpc/tasks.py:160-300 | Parsing the written lines succeeds and gives back their records, grouped by owner and type and in order |
| `ZoneRender.TableRoundTrip` | axfr/src/parser.rs:133-178 | The same with the parser's own type table, for every type in it but SOA, KEY and NSEC whose word reads neither as a time nor as a class |
| `ZoneRender.Render` | hexdns_django/dns_grpc/tasks.py:160-300 | Growing the file line by line gives the lines in order |
| `SvcbText.ContiguousInverts` | hexdns_django/dns_grpc/svcb.py:74-87 | Decoding undoes every way of writing a byte string and leaves the rest of the buffer |
| `SvcbText.ContiguousComplete` | hexdns_django/dns_grpc/svcb.py:74-87 | Whatever decodes was written in one of the grammar's ways, up to where decoding had to stop |
| `SvcbText.QuotedInverts` | hexdns_django/dns_grpc/svcb.py:90-98 | The same for a quoted string, which may hold spaces |
| `SvcbText.ListDecodeInverts` | hexdns_django/dns_grpc/svcb.py:140-153 | Decoding undoes escape-and-join for every non-empty list of byte strings |
| `SvcbText.ListDecodeInjective` | hexdns_django/dns_grpc/svcb.py:116-153 | Escaping and joining what any accepted input decodes to gives the same bytes |
| `SvcbText.ListCharacterNeverInvalid` | hexdns_django/dns_grpc/svcb.py:150-151 | No input meets the list-character error |
| `SvcbText.AlpnTextRoundTrip` | hexdns_django/dns_grpc/svcb.py:329-345 | Reading an ALPN value inverts both nested escapings, however the outer one was written, for items of at most 255 bytes; a longer item is refused |
| `SvcbText.EscapeAll` | hexdns_django/dns_grpc/svcb.py:27-31 | Every byte string can be written so |
| `SvcbErrors.CharacterClasses` | hexdns_django/dns_grpc/svcb.py:20-46 | The classes in numbers: non-special is 33 to 126 less 34, 40, 41, 59 and 92; an escape of one character is 33 to 126 less the digits; an item may hold all but 44 and 92 |
| `SvcbErrors.RunFailsExactly` | hexdns_django/dns_grpc/svcb.py:56-87 | A run fails with an error exactly when a well-written part is followed by a backslash that starts no escape, for that reason: too short, not three digits, or more than 255 |
| `SvcbErrors.QuoteMissing` | hexdns_django/dns_grpc/svcb.py:90-98 | A quoted string that stops at anything but a quote is unterminated |
| `SvcbErrors.ListFailsExactly` | hexdns_django/dns_grpc/svcb.py:116-153 | A list fails with an error exactly behind well-escaped items at a backslash at the end or before anything but a comma or a backslash |
| `SvcbErrors.NothingMayFollow` | hexdns_django/dns_grpc/svcb.py:329-345 | An ALPN value with anything behind its character string is refused as left-over data, whether the string is quoted or bare |
| `SvcbBuffer.ByteBuffer.DecodeEscaped` | hexdns_django/dns_grpc/svcb.py:56-71 | Popping bytes computes the escape, its error or its value and the remaining buffer |
| `SvcbBuffer.ByteBuffer.DecodeContiguous` | hexdns_django/dns_grpc/svcb.py:74-87 | The loop computes the decoded run and leaves the byte that stopped it |
| `SvcbBuffer.ByteBuffer.DecodeCharString` | hexdns_django/dns_grpc/svcb.py:90-98 | The same for quoted and bare strings |
| `SvcbBuffer.ByteBuffer.DecodeItem` | hexdns_django/dns_grpc/svcb.py:116-137 | The loop computes the unescaped item and leaves its comma |
| `SvcbBuffer.ByteBuffer.DecodeCommaList` | hexdns_django/dns_grpc/svcb.py:140-153 | The loop computes the list |
| `SvcbBuffer.AlpnFromText` | hexdns_django/dns_grpc/svcb.py:329-345 | Both layers in sequence, with left-over data and long items refused |
| `SvcbPrint.PrintRoundTripExact` | hexdns_django/dns_grpc/svcb.py:296-303 | A byte string reads back from its printed form, by the decoder that reads values, if and only if it is not empty and every byte is non-special or at least 127 |
| `SvcbPrint.QuoteNeverReadsBack` | hexdns_django/dns_grpc/svcb.py:90-98 | A string that starts with a quote is read as a quoted one and never comes back |
| `SvcbPrint.PrintRoundTrip` | hexdns_django/dns_grpc/svcb.py:296-303 | A non-empty string of such bytes reads back in front of any text that a string stops at |
| `SvcbPrint.NeverCatchesUp` | hexdns_django/dns_grpc/svcb.py:296-303 | Once the decoder has misread a printed byte, inside or outside quotes, no later bytes make up for it |
| `SvcbWire.PackList` | hexdns_django/dns_grpc/svcb.py:221-243 | Reading the packed bytes as key, length and value triples returns the stable sort of the parameters; the first parameter out of range in that order is the error |
| `SvcbErrors.ParamBytes` | hexdns_django/dns_grpc/svcb.py:221-227 | A parameter's bytes are its key and its length, high byte first, and its data |
| `SvcbErrors.FaultExactly` | hexdns_django/dns_grpc/svcb.py:221-227 | The error is that of the first parameter in sorted order that does not fit, its length judged before its key |
| `SvcbWire.WireKeyOrder` | hexdns_django/dns_grpc/svcb.py:240-243 | Keys never decrease on the wire, and strictly increase when they are distinct |
| `SvcbWire.StableSortUnique` | hexdns_django/dns_grpc/svcb.py:241 | The stable sort of a list is unique |
| `SvcbWire.AlpnWireRoundTrip` | hexdns_django/dns_grpc/svcb.py:347-350 | The length-prefixed list reads back as the items packed |
| `ReverseNames.SuffixImpliesInNetwork` | hexdns_django/dns_grpc/tasks.py:33-86 | An address whose reverse name ends in the network's is in the network, for both families and every prefix length |
| `ReverseNames.NamesCoverNetworkExactly` | hexdns_django/dns_grpc/tasks.py:33-86 | Every address of the network has its name under the network's, if and only if the prefix length is a multiple of 8 (IPv4) or 4 (IPv6) |
| `ReverseNames.SuffixMeansShownBits` | hexdns_django/dns_grpc/tasks.py:33-86 | The one name ends in the other exactly when the bits that the network's name shows agree |
| `ReverseNames.NetworkNameExactly` | hexdns_django/dns_grpc/tasks.py:33-65 | The labels of a network's name: those of its groups up to the prefix, the last group first, then `in-addr` or `ip6` and `arpa` |
| `ReverseNames.GroupTextExactly` | hexdns_django/dns_grpc/tasks.py:33-86 | An IPv6 label is the lower-case hexadecimal digit of its four bits, an IPv4 label the decimal of its eight without leading zeros |
| `ReverseNames.AddressNamed` | hexdns_django/dns_grpc/tasks.py:68-86 | An address is named as the network of that address alone |
| `LocSize.SizeByte` | hexdns_django/dns_grpc/models.py:1626-1682 | For every size up to 9,000,000,000 cm both digits are at most 9, the decoded size d has d <= v < d + 10^e and v < 2d for v > 0, re-encoding gives the same byte, and the two encoders agree |
| `LocSize.EncodedDigits` | axfr/src/parser.rs:892-900 | Both encoders write the leading digit and the number of digits after it |

## Left out

- Rfc2136.StepIsRfc: owners are in lower case and below the apex, the domain of the update loop; an internationalised name is served as it is stored.
- Rfc2136Loop.LoopIsRfc: the same domain, on zones without wildcard names, for owners that a text stands for and without additions of CNAMEs; what one RR does outside these is in `Rfc2136.StepIsRfc`.
- Prerequisites.PrerequisiteIsRfc: covers the types that updates can add, not HTTPS and SSHFP; stored names are in lower case, as saving a row makes them.
- Prerequisites.HttpsMissedExactly: the scheme of a service holds no dot.
- ZoneContent: the DNSKEY and RRSIG records that the signer adds to the zone file are not modelled.
- UpdateProof.CnameExclusion: DHCID, GitHub Pages and DNSKEY records are outside it, as they are outside `any_records`; HTTPS records count only for the default service at names that do not begin with an underscore.
- UpdateServer.Server.HandleUpdate: what MAC and algorithm verification gave, what comparing value-dependent prerequisites gave (lines 1049-1109), and whether converting, refreshing or saving an RR raises are inputs; the response's own signature is not modelled.
- UpdateModel: labels are compared exactly, where the DNS library may fold case in suffix tests; record data is opaque, so a stored row is taken to give back the data it was made from; a service port counts only in plain decimal digits.
- Lookup.Response.Lookup: covers the types whose lookup is records or CNAME and nothing else (MX, TXT, SRV, NAPTR, LOC, HINFO, RP, DHCID), the answer section only, with the interpreter's recursion limit as a parameter; address, NS, HTTPS and DS lookups, referrals and DNSSEC are not modelled.
- CacheModel: a poller's 500 ms sleep, the updater's minute and its lock over the scan are taken as free interleaving, which allows more runs than the program has; the five-second timeout responder, NSID options, metrics and transfer relaying are not modelled.
- Transfer.SendZone: the map's order is left open; the library's removal of repeated records within a set and its RRSIG handling are not modelled, so sets are as inserted; ACL and TSIG request checks are not modelled.
- Transfer.SecondaryZone.Sync: short reads and malformed messages are one kind of failure; the SOA query that precedes the transfer only supplies the new serial.
- TsigStream.TsigContext.SignMessage: HMAC and the encoders are uninterpreted, and times are below 2^48 seconds.
- TsigStream.SignTransfer: the unsigned failure message that follows a message that cannot be encoded is not in the stream, and the verifier's check of the time against the fudge is not modelled.
- TsigStream.LastMacBindsAll: MACs are shorter than 65536 bytes, as the 16-bit length before them demands.
- ZoneFile.ParseTokens: the lexer's tokens are given; times, names, classes and record data are parsed by library functions that are parameters, with the parser's own type table available as `WithTypeTable`; the panic on KEY and NSEC records is an error value.
- ZoneRender.RenderRoundTrip: record sets are plain appends, while the library's set insertion, which is not part of this model, drops repeated records and may replace an earlier CNAME; lines are token sequences of name, TTL, class, type and data; that the library reads each field as what it was written for is a hypothesis, SOA lines and the TYPE65 form are not covered, and neither are the queries that produce the records.
- ZoneSets.InsertionExactly: states grouping for appended sets, with the same difference to the library's set insertion.
- SvcbText: the parameter-list syntax around values (`decode_svcb_param_list`) and the other value classes are not modelled.
- LocSize.SizeByte: sizes are whole centimetres in exact arithmetic, so floating-point rounding in the logarithm is not captured; latitude, longitude and altitude are not modelled.
- The web interface, the API, accounts and billing, storage, message queues, DNSSEC signing, the `update.rs` and `lib.rs` server plumbing and the dynamic-DNS endpoints are not modelled: they are configuration, plumbing or a few branches each.
