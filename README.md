# apnscp PowerDNS provider: a Dafny model of its RRset reconciliation

The apnscp control panel edits DNS one record at a time. The PowerDNS HTTP API
edits one RRset at a time: an RRset is everything at one name and type. PATCH
works per RRset, with `REPLACE` (a whole new member list) or `DELETE` (drop the
RRset). So the provider module has to read the zone first. It then carries
over the members of other records at that name+type into every patch it sends.
Without that, adding or removing one record would wipe out its neighbours.

What the model covers:

- **Provider module** (`src/Module.php`):
  - the name helpers: `makeCanonical`, `makeFqdn`, `replaceMarker`;
  - the content builders: `parseParameter`, `formatRecord`, `hasCnameApexRestriction`;
  - the zone seeds `createSOA` and `createNS`, and the SOA branch of `canonicalizeRecord`;
  - the three reconcilers `addRecords`, `removeRecords` and `changeRecords`;
  - the guards of `add_record`, `remove_record` and `atomicUpdate`.
  - The fetched RRsets are the `records` field of the `Provider.Module` class, and every fetch bumps a `fetches` counter.
  - Each reconciler is a method with a loop. It is proved equal to a recursive function in module `Reconcile` (`ensures ret == Reconcile.AddRecords(...)`). The lemmas about what the PATCH contains are stated about that function.
- **API client** (`src/Api.php`): the packet-cache bookkeeping. `flagDirty` records, for each changed (name, type), when it was last changed. `dirty` answers whether a read of that name+type may still come from the server's query cache. Class `PdnsApi.Api` holds the two static fields. `Do` models the part of `do` that runs before the HTTP request: checking the method, stripping slashes, counting the call as a modification, and prefixing the path.
- **Record class** (`src/Record.php`): the per-type formatters of class `RecordFormat.Record`. They work on the fields `parameter`, `meta` and `ttl`.

Behaviour of the code that the model keeps, even where it is surprising:

- **The trailing dot is always added.** `makeCanonical` always appends a dot after trimming, because its test for a trailing dot runs after the trim.
- **Duplicate stops the add scan.** `addRecords` stops at the first matching RRset that already holds the record. Every earlier match has already been emitted.
- **Removal by an empty parameter.** With an empty (falsy) parameter, `removeRecords` unsets the *first* member. Only the *first* emitted entry is checked for being empty before the answer is turned into a `DELETE`.
- **Change removes all copies.** `changeRecords` drops every member equal to the old content, not one.
- **Change when nothing matched.** When neither location is found, the answer is `[$add, []]`. The model writes the trailing empty entry as `Blank`. `flagDirty` then throws on it, after flagging the sets before it (`PdnsApi.Api.FlagDirty`, `PdnsApi.Api.Do`).
- **Change onto an existing RRset.** The new-location entry is just `formatRecord($new)`: `array_replace` lets the formatted record overwrite every key. So the members already at the new location are not carried over (`Reconcile.ChangeMovesOntoSet`).
- **Change in place.** When old and new share a name+type, the code emits exactly one entry only when the old content was the set's only content (`Reconcile.ChangeInPlaceSingle`). When other members remain, the code emits two REPLACE entries for the same name+type: the new record alone, then the kept members (`Reconcile.ChangeAtOldSet`).
- **An apex record moved onto an existing set is renamed `@.<zone>.`.** In the merge branch of `changeRecords`, the old-location entry is named by `makeFqdn` of the old record, not by `replaceMarker`. So an apex record's entry is named `@.example.com.` rather than `example.com.` (`Reconcile.Unshifted`, `Reconcile.ChangeMovesOntoSet`).
- **Cache flush counts as a modification.** `do` calls `strpos('cache/flush?', $endpoint)`, which is the arguments reversed. So only endpoints that are a prefix of that literal are exempt from counting as a modification. A real flush (`cache/flush?domain=…`) does count (`PdnsApi.FlushCountsAsModification`).

PHP semantics the model writes out:

- `empty()` and a boolean test are false for `""` and `"0"` (`PhpStrings.IsFalsy`).
- `strpos` with an empty needle finds offset 0.
- `trim`, `ltrim` and `rtrim` with one character, `strtoupper` on ASCII, and `str_replace`.
- `preg_split('/\s+/')` and `implode(' ')`.
- `sprintf('%d')` reading the decimal integer at the start of a string: leading whitespace, an optional sign, then digits.
- All three files declare `strict_types`, so `trim(null)` and `rtrim(null)` raise a TypeError. The model returns `Raised` or `None` for these cases: a CAA record without `data` metadata, or an SOA parameter with one field.

## Model

| member | source | states |
|---|---|---|
| Names.MakeCanonical | src/Module.php:194-206 | a falsy name comes back unchanged; any other name comes back without its leading and trailing dots plus exactly one trailing dot |
| Names.MakeCanonicalIdempotent | src/Module.php:194-206 | canonicalising a canonical name changes nothing |
| Names.MakeFqdn | src/Module.php:377-388 | a subdomain that contains the zone is kept as it is (made canonical on request); otherwise, in the plain form, its non-falsy labels and the zone are joined with a dot and only trailing dots are dropped; a canonical result is falsy or ends in a dot |
| Names.MakeFqdnCanonicalJoin | src/Module.php:377-388 | the canonical form is the plain form made canonical; for a subdomain without the zone it is the joined labels without outer dots plus exactly one trailing dot |
| Names.ReplaceMarker | src/Module.php:512-521 | `@` names the canonical zone, a name that already contains the zone is only made canonical, and every target is falsy or ends in a dot |
| Names.ReplaceMarkerLabel | src/Module.php:512-521 | a plain label that does not contain the zone is qualified as `label.zone.` (through `makeFqdn`, src/Module.php:377-388) |
| Names.ReplaceMarkerApex | src/Module.php:512-521 | the empty subdomain and the `@` marker both name the canonical zone apex, which ends in a dot |
| Content.HasCnameApexRestriction | src/Module.php:96-104 | apex CNAMEs are restricted unless `AUTH_DNS_RECURSION` is defined and `AUTH_PDNS_RECURSION` is on |
| Content.UndefinedRecursionKeepsType | src/Module.php:96-104 | with `AUTH_DNS_RECURSION` undefined, `formatRecord` keeps every record's type whatever `AUTH_PDNS_RECURSION` says, because the constant tested is not the one read |
| Content.ApexCnameAlias | src/Module.php:574-581 | an apex CNAME is sent as ALIAS exactly when `AUTH_DNS_RECURSION` is defined and `AUTH_PDNS_RECURSION` is on |
| Content.ParseParameter | src/Module.php:530-556 | CNAME content is the canonical target, the canonical zone for `@` and `127.0.0.1`, and a falsy parameter unchanged; CAA content is `%d flags`, tag and the data quoted once; any other content has the parameter's length, each tab made a space and every other character kept |
| Content.IntTextRoundTrip | src/Module.php:544-550 | the `%d` rendering of an integer reads back as that integer |
| Content.CaaQuotedOnce | src/Module.php:544-550 | CAA data already in quotes gives the same content as the bare data, and the flags field is stable under `%d` |
| Content.FormatRecord | src/Module.php:565-597 | a single-member REPLACE set with the parsed content, no comments, the record's ttl, the fqdn of the name with `@` as apex, and type ALIAS exactly when the record is ALIAS or an apex CNAME without the apex restriction |
| Content.FormatRecordTtl | src/Module.php:565-597 | the record's ttl reaches the formatted set only as the set's ttl |
| Content.CreateSoa | src/Module.php:217-244 | one SOA set at the canonical zone name, ttl 86400, one enabled member `primary. rname serial01 3600 1800 604800 600` |
| Content.SoaRNameOfMailbox | src/Module.php:219-224 | a mail-address contact `local@domain` becomes `local.domain.` with the dots of the local part escaped |
| Content.SoaCanonical | src/Module.php:736-742 | a falsy SOA parameter is left alone; a truthy one raises exactly when it has fewer than two whitespace-separated fields |
| Content.SoaCanonicalFields | src/Module.php:736-742 | a truthy SOA parameter raises exactly when it has fewer than two fields; otherwise the result has the same fields, the first two ending in exactly one dot |
| Content.SoaCanonicalIdempotent | src/Module.php:736-742 | canonicalising an already canonical SOA parameter changes nothing |
| Provider.CanonicalParameter | src/Module.php:736-742 | only SOA parameters are rewritten, by the SOA canonical form |
| Reconcile.AddRecords | src/Module.php:470-502 | the add patch list is never empty |
| Reconcile.AddCreatesWhenAbsent | src/Module.php:496-499 | with no set at the record's name+type, the patch is one new set holding just the record |
| Reconcile.AddKeepsCoLocated | src/Module.php:476-494 | with one set at the name+type, that set goes out as a REPLACE with all its members in order, plus the new content at the end unless a member is the same record |
| Reconcile.AddSecondExchange | src/Module.php:470-502 | adding `20 mx2.example.com.` at `mail.example.com./MX` next to `10 mx1.example.com.` yields one REPLACE holding both, ttl kept |
| Reconcile.RemoveIndex | src/Module.php:668-674 | the unset member is the first one equal to the parameter, or the first one for a falsy parameter; none earlier matches |
| Reconcile.RemoveFinds | src/Module.php:668-674 | a member is unset exactly when the set is non-empty and the parameter falsy, or some member has the parameter as content |
| Reconcile.WithoutOne | src/Module.php:670-671 | unset plus `array_values` keeps the other members in order and takes out exactly one copy |
| Reconcile.RemoveKeepsOthers | src/Module.php:666-680 | with a truthy parameter every member of other content survives the removal |
| Reconcile.RemoveRecords | src/Module.php:660-694 | every entry targets the record's name+type, and an emptied first entry becomes a single DELETE |
| Reconcile.RemoveWhenAbsent | src/Module.php:681-691 | removing from a name+type with no set is a DELETE of it |
| Reconcile.RemoveKeepsCoLocated | src/Module.php:666-691 | with one set at the name+type, the set minus one member goes out as a REPLACE without comments, or a DELETE once no member remains |
| Reconcile.RemoveOneAddress | src/Module.php:660-694 | removing `1.1.1.1` from `www.example.com./A` keeps `2.2.2.2` alone in a REPLACE |
| Reconcile.RemoveLastAddress | src/Module.php:660-694 | removing the last address of `www.example.com./A` deletes the set |
| Reconcile.KeptMembers | src/Module.php:861-867 | the kept members are exactly the members of other content, each as often as in the set |
| Reconcile.ChangeRecords | src/Module.php:841-920 | one or two entries, and the formatted new record is always among them, with its own ttl when it has one |
| Reconcile.ChangeFinish | src/Module.php:889-919 | the final patch list has one or two entries, one of them the new record formatted with the inherited ttl |
| Reconcile.ChangeLoopAppend | src/Module.php:851-887 | scanning two parts of the snapshot is scanning the second from where the first left off |
| Reconcile.ChangeNothingFound | src/Module.php:889-896 | when no set is taken at either location, the patch is the new record followed by an empty entry |
| Reconcile.ChangeAtOldSet | src/Module.php:852-896 | with the old set the only one taken, the new record goes out with the inherited ttl, then the old set's kept members; they collapse into one entry exactly when the old set is emptied and the new record lands at the same name+type |
| Reconcile.ChangeInPlaceSingle | src/Module.php:889-894 | a change in place of a set's only content emits exactly one entry |
| Reconcile.ChangeAtNewSetOnly | src/Module.php:881-907 | with only the new location taken, the patch is the new record alone |
| Reconcile.ChangeMovesOntoSet | src/Module.php:899-919 | a move onto an existing set emits the old location first, always REPLACE and holding the kept members, then the new record alone, without the new location's other members |
| Provider.Module.constructor | src/Module.php:65-76 | the apex restriction is `hasCnameApexRestriction` of the two recursion settings, the rest of the configuration is fixed, and no zone is fetched yet |
| Provider.Module.AddRecords | src/Module.php:470-502 | the loop computes exactly the add patch list of the snapshot |
| Provider.Module.RemoveRecords | src/Module.php:660-694 | the loop computes exactly the remove patch list of the snapshot |
| Provider.ScanForRemoval | src/Module.php:666-680 | the loop over the snapshot collects, in snapshot order, every set at the name+type with its first removable member unset, its comments dropped and marked REPLACE |
| Provider.Module.ChangeRecords | src/Module.php:841-887 | the scan computes exactly the change patch list of the snapshot |
| Provider.Module.FinishChange | src/Module.php:889-919 | the tail of `changeRecords` builds exactly the final patch list |
| Provider.HoldsDuplicate | src/Module.php:480-490 | the inner loop finds a member that is the same record exactly when one exists |
| Provider.KeepOthers | src/Module.php:862-867 | the inner loop keeps exactly the members of other content, in order |
| Provider.UnsetFirst | src/Module.php:668-674 | the inner loop unsets exactly the member the removal index names |
| Provider.Module.CreateNS | src/Module.php:273-292 | one NS set at the canonical zone name, ttl 86400, holding every nameserver canonical and in order |
| Provider.Module.AddRecord | src/Module.php:416-460 | SOA is refused, or raises for a one-field parameter, without fetching; otherwise one fetch, then the PATCH of the add patch list for the record with its metadata, or a TypeError when a CAA record's metadata has no data |
| Provider.Module.RemoveRecord | src/Module.php:609-650 | SOA is refused, or raises, without fetching; otherwise one fetch and the PATCH of the remove patch list |
| Provider.Module.AtomicUpdate | src/Module.php:791-828 | both parameters canonicalised first; a non-admin touching SOA is refused without fetching; otherwise one fetch and the PATCH of the change patch list |
| PdnsApi.RecordHash | src/Api.php:149-152 | the key is the type, a dot, then the hostname without its leading and trailing dots, so a dot-free type is its own prefix up to the first dot |
| PdnsApi.HashTrimsDots | src/Api.php:149-152 | a name with or without its dots, trailing dot included, shares one key |
| PdnsApi.HashInjective | src/Api.php:149-152 | for dot-free types, two keys agree exactly when type and trimmed name agree |
| PdnsApi.DefaultQueryKey | src/Api.php:119-126 | `dirty()` with its default arguments looks up `ANY.`, which only an `ANY` set with an empty or all-dot name matches |
| PdnsApi.CountsAsModification | src/Api.php:78 | a call counts as a modification exactly when its method is not GET and the endpoint is not a prefix of `cache/flush?`: it is longer, or differs at some position |
| PdnsApi.FlushCountsAsModification | src/Api.php:78 | a domain cache flush counts as a modification; only prefixes of `cache/flush?` are exempt |
| PdnsApi.RequestPath | src/Api.php:85-88 | the path always names a server: unchanged when it does, else under `servers/localhost/` |
| PdnsApi.RequestPathIdempotent | src/Api.php:85-88 | a normalised path stays as it is |
| PdnsApi.FlagPrefix | src/Api.php:141-144 | the sets flagged before the first entry that is not an RRset, where `flagDirty` throws |
| PdnsApi.FlaggedHas | src/Api.php:141-144 | after flagging, every flagged set's key maps to the flag time |
| PdnsApi.FlaggedLeaves | src/Api.php:141-144 | flagging leaves every other key as it was |
| PdnsApi.FreshlyFlaggedIsDirty | src/Api.php:119-147 | a set flagged by the last modification reads dirty, under any spelling of its name, exactly until the deadline passes |
| PdnsApi.ExpiredIsClean | src/Api.php:121-124 | once the deadline has passed since the last modification nothing is dirty |
| PdnsApi.DirtyWindow | src/Api.php:119-147 | an A set changed at 0 reads dirty at 10 and clean at 25 with the default deadline |
| PdnsApi.DirtyWindowOthers | src/Api.php:119-147 | a set of another name or type is never dirty |
| PdnsApi.Api.constructor | src/Api.php:59 | the deadline is `AUTH_PDNS_DEADLINE` when defined, else 20; the cache starts empty |
| PdnsApi.Api.GetLastModification | src/Api.php:114-117 | returns the last modification time |
| PdnsApi.Api.Dirty | src/Api.php:119-133 | the dirty verdict for the key of the name+type; an expired window empties the cache, nothing else changes |
| PdnsApi.Api.FlagDirty | src/Api.php:135-147 | without rrsets nothing changes; otherwise the sets before the first non-RRset entry are flagged at the last modification time, and it throws exactly when such an entry exists |
| PdnsApi.Api.Do | src/Api.php:62-88 | unknown methods are rejected with no change; GET and the flush-prefix endpoints change nothing; any other call sets the modification time and flags its sets; the path is normalised |
| RecordFormat.DotMeta | src/Record.php:70-72 | `data` metadata, when present, ends in exactly one dot; the keys and other values are kept |
| RecordFormat.DotMetaIdempotent | src/Record.php:68-74 | dotting the metadata twice is dotting it once |
| RecordFormat.SpfText | src/Record.php:45-49 | the SPF text is the dotted unquoted value inside exactly one pair of quotes: trimming the quotes gives that value and takes exactly two characters away |
| RecordFormat.SpfIdempotent | src/Record.php:45-49 | formatting SPF text twice is formatting it once |
| RecordFormat.UriData | src/Record.php:58 | URI data is the unquoted data inside exactly one pair of quotes: trimming the quotes gives that data and takes exactly two characters away |
| RecordFormat.UriMeta | src/Record.php:58 | only the `data` metadata changes, to its once-quoted form |
| RecordFormat.UriIdempotent | src/Record.php:56-66 | formatting a URI record twice is formatting it once, parameter included |
| RecordFormat.Record.constructor | src/Record.php:18 | a new record's ttl is the module's `DNS_TTL` |
| RecordFormat.Record.AppendDot | src/Record.php:68-74 | parameter and `data` metadata end in exactly one dot; ttl unchanged |
| RecordFormat.Record.FormatCaa | src/Record.php:20-23 | as `appendDot` |
| RecordFormat.Record.FormatCname | src/Record.php:25-28 | as `appendDot` |
| RecordFormat.Record.FormatDname | src/Record.php:30-33 | as `appendDot` |
| RecordFormat.Record.FormatNs | src/Record.php:35-38 | as `appendDot` |
| RecordFormat.Record.FormatMx | src/Record.php:40-43 | as `appendDot` |
| RecordFormat.Record.FormatSrv | src/Record.php:51-54 | as `appendDot` |
| RecordFormat.Record.FormatSpf | src/Record.php:45-49 | the parameter becomes the SPF text, the `data` metadata is dotted |
| RecordFormat.Record.FormatUri | src/Record.php:56-66 | throws, changing nothing, exactly when there is no `data` metadata; otherwise the data is quoted once and the parameter is `priority weight data` |

## Left out

- HTTP transport: the Guzzle client, its redirect refusal, request headers, JSON decoding and status codes. The fetched RRsets are a parameter of each record operation, and a PATCH is the `Patched` outcome.
- `src/Validator.php` and the module's other API wrappers (`add_zone_backend`, `remove_zone_backend`, `record_exists`, `flush`, `zone_exists`, `get_all_domains`, `zoneAxfr`, `get_hosting_nameservers`, `getSOAContact`). No reconciliation logic lives there.
- The host base classes are not part of this model:
  - `Record::is` is the `same` parameter;
  - `parent::canonicalizeRecord` and `owned_zone` are taken to succeed;
  - the host record's field normalisation and its per-type formatter dispatch are not modelled; the metadata it derives for a new record (the CAA flags, tag and data) is a parameter of `Provider.Module.AddRecord`;
  - the MX priority metadata is not merged into the parameter, so an MX parameter carries its priority itself.
- The list of permitted record types, and `ALIAS` joining it without the apex restriction (src/Module.php:37-73): type validation belongs to the host's record checks.
- `crc32`: cache keys are the strings the checksum is taken of, so checksum collisions are not modelled.
- The clock and `date('Ymd')` are parameters. So are the configuration constants (`AUTH_PDNS_DEADLINE`, `AUTH_DNS_RECURSION`, `AUTH_PDNS_RECURSION`, `DNS_TTL`) and the admin privilege.
- The static `lastModification` and `deadlineCache` are fields of one `PdnsApi.Api` object. Their sharing between instances of one process is not modelled.
- `debug()` in `dirty` is taken to return true, as its use as the verdict expects.
- `makeCanonical` and `makeFqdn` on `null` are not modelled; names are strings.
- Unset holes: in `changeRecords`, `unset` without `array_values` can leave gaps in the kept members, and then JSON would encode them as an object. The model keeps them as a list.
- The DELETE entry's `records` is the empty string in the source; the model writes an empty member list.
- The optional keys of an RRset (`ttl`, `comments`, `changetype`) are `Option`s. A key set to `null` and an absent key are the same in the model.
- Content.PhpIntval: reads only the leading decimal integer of the CAA flags. PHP reads a numeric string with a decimal point or an exponent as a float and truncates it, so flags `1e2` give 100 in PHP and 1 here. The model also does not model float rounding or PHP's 64-bit saturation.
- Reconcile.AddRecords: requires CAA data to be present. The TypeError path for CAA without data is modelled one level up, in `Provider.Module.AddRecord`.
- Provider.Module.AddRecord: raises for a CAA record without data even when the snapshot already holds a duplicate. The source raises only when it reaches `parseParameter`, which a duplicate found first would skip.
