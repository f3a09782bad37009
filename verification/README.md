# A model of the WAF module's core in Dafny

The repository holds an nginx module that inspects requests and an agent that archives what the
module records. This project models the parts of both whose correctness does not show from reading
one function, and proves what those parts promise: the dataset mirror in shared memory, the JSON
codec, the Redis and NATS byte-stream parsers, the name lists that module and agent apply in turn,
streaming SHA-256, and the two counters that must never lose or repeat anything.

`dafny verify dfyconfig.toml` checks everything. The files:

| file | what it models |
|---|---|
| `Bytes.dfy` | octets, concatenation, decimal numbers, the order of `ngx_memcmp` |
| `Overlay.dfy` | the live overlay of one dataset slot: a class with the tree, its counters and the set hash |
| `Mirror.dfy` | workers applying snapshots and packages in batches, with local bans between any two batches |
| `MirrorTimes.dfy` | how long mirrored entries are in force, and what a tick says of a mirror that is off |
| `MirrorExample.dfy` | a run of that machine which shows that one side condition is needed |
| `Publish.dfy` | publication of static sets to readers that take no lock |
| `Zone.dfy` | dataset slots across reloads |
| `CidrSet.dfy`, `StringSet.dfy` | the two static indexes |
| `Utf8.dfy`, `JsonText.dfy`, `JsonGrammar.dfy`, `JsonCodec.dfy` | UTF-8, JSON strings, JSON values, and the writer and reader over them |
| `NameLists.dfy`, `Headers.dfy`, `QueryArgs.dfy` | name lists as the module and as the agent compare names, over headers, and over the bytes of a query string |
| `Resp.dfy`, `RedisRuns.dfy` | the reply parser, and runs of a pipelined connection |
| `Nats.dfy` | bus framing |
| `Sha256.dfy`, `Sha256Standard.dfy` | the digest against FIPS 180-4, and its constants against their definition there |
| `Holds.dfy` | the hold counter |
| `Parking.dfy`, `ParkingRuns.dfy` | the archive's baskets and parking counter, and what runs of its pool come to: closing it, and its maps of locators |

Code that updates objects and buffers step by step is modelled by classes and loops, each proved
equal to a function of the old state; what the source promises is then proved of those functions.
Code whose difficulty is interleaving (several workers, readers, timers, requests) is a state
machine: a step for every section the source runs without interruption, any order of steps a run,
and theorems over every state of every run. The steps of `Mirror.dfy` and `Zone.dfy` are the very
functions and predicates the methods of the overlay and of the zone are proved to follow; the sweep,
which the machine takes node by node, is tied to the overlay's method by `Mirror.SweepTurnsAreASweep`,
and the Redis parser to the runs of a connection by `RedisRuns.ParsingIsRunning`.

What the model takes as given: atomics are sequentially consistent; siphash is a function whose
values are never zero, crc32 and the value hash are functions; the red-black tree is a map walked in
(crc, bytes) order; `ngx_qsort` leaves some sorted permutation; an allocation may fail at any point
and is then a parameter of the step; the keeper's packages are honest (each carries the difference
between two of its sets); a Redis server begins no reply before the command it answers was sent; what
a completion handler does to its connection is to send commands and to destroy pools, at any reply
whatever it likes of these; single accesses to a Go map are atomic (see the last finding); configured
names are ASCII, where the comparison of names is concerned.

## Findings

Where the code does not do everything its documentation says, the model follows the code.

- A local ban that hits an entry while a snapshot which drops that entry is loading keeps the entry,
  with its keeper hash, until the next snapshot (`module/src/local/ngx_http_waf_ds_live.c:173`).
  `Mirror.ExactMirror` has the exact condition and `MirrorExample.BanRevivesEntry` a run.
- A ban on an entry without expiry gives it one, so the entry may be gone where it would have stayed
  (`module/src/local/ngx_http_waf_ds_live.c:189-194`). `Overlay.BanEndsLastingEntry` is such an entry;
  by `Overlay.BanLivesOn` a ban lets an entry live on if and only if the entry had an expiry or the ban
  has none, and `Overlay.Slot.Put` and `Mirror.BansLiveOn` say the same of the method and of every run.
- The agent compares names with `strings.EqualFold` (`agent/internal/retain/filter.go:34`), the module
  by ASCII case. U+017F folds to `s` and U+212A to `k`, so with `sid` masked on both sides the module
  leaves the value of `%C5%BFid=x` as it is and the agent archives it, taking it for hashed:
  `QueryArgs.MaskedValueInClear`. For one query string or list of headers the exact condition is in
  `QueryArgs.CoveredArgs` and `Headers.CoveredHeaders`; for all of them it is that no name both sides
  hash has an `s` or a `k` in it: `QueryArgs.ArgsLaw`, `Headers.HeadersLaw`.
- The module hashes a masked header value as received, the agent as it arrives through JSON, where
  ill-formed UTF-8 was replaced. If both lists mask a name whose value is not UTF-8, the archive made
  from the capture differs from one made from the original although the lists cover each other:
  `Headers.CoveredHeaders` has the exact condition, `Headers.RepairChangesHash` the case of a
  Latin-1 byte.
- `jp_skip` reads a number as far as its form goes on and fails where it is then cut short, although a
  shorter prefix is a value: `JsonGrammar.CutNumberRefused` for `1.`. By `JsonGrammar.ReaderIsRfc8259`
  it stops behind a value if and only if what follows is nothing that number could go on with; the
  digit behind a zero is not (`JsonGrammar.ZeroStandsAlone`).
- An operation of a frame registers no cleanup (`module/src/stream/ngx_http_waf_frame.c:1463`). If a
  request were torn down inside a frame, the hold would stay counted: `Holds.TornDownInItsFrame`. No
  path in `module/src/stream/ngx_http_waf_frame.c` is known to do so: those at lines 539-572, 1921 and
  2408-2454 all end the frame first. `Holds.NothingHeldAfterwards` has the exact condition, and
  `Holds.EndedFramesAreClean` shows it met where the frame is ended first, as every call of
  `ngx_http_waf_frame_finalize` does (`module/src/stream/ngx_http_waf_frame.c:2284-2297`).
- `Pool.Close` waits for the workers and for its own flushes, not for a timer that took a basket's items
  just before (`agent/internal/retain/batch.go:73-105`), so it may return with a decision unpublished:
  `ParkingRuns.CloseOvertakesTimer`. By `ParkingRuns.CloseDrainsUntimed` every run publishes a queued
  decision before Close returns, if and only if none of the kinds it archives and has a locator for has
  a time limit on its basket; `ParkingRuns.CloseDrains` says which decisions a given run has published.
- `enqueue` and `move` read a decision's map of locators outside the lock under which `complete` writes
  it. By `ParkingRuns.ReadsAndWritesMeet` a read and a write of it are due at once in some run, if and
  only if the decision archives a kind behind (in the order of `audit.Kinds`) one that it archives and
  that has a locator. The model takes each access as atomic; under that assumption no stale locator is
  read: `ParkingRuns.MovesReadTheOriginal`.

## Model

| member | source | states |
|---|---|---|
| `Overlay.Slot.Put` | module/src/local/ngx_http_waf_ds_live.c:142-227 | the new nodes and the return code for every case: bad key, no memory, full, refresh of an entry (generation always, hash only from the keeper, expiry only if it outlives), insert; node count, per-length counters and set hash stay exact; a ban lets an entry live on exactly when the entry had an expiry or the ban has none; a new entry, and one the keeper puts again, is in force exactly until the expiry given, and one that a ban meets, both with an expiry, until the later of the two |
| `Overlay.PutInForce` | module/src/local/ngx_http_waf_ds_live.c:160-227 | a put of a new key, and every put of the keeper, leaves the entry in force exactly until the expiry given |
| `Overlay.BanExtends` | module/src/local/ngx_http_waf_ds_live.c:189-194 | an entry and a ban on it, both with an expiry: in force exactly while either would be |
| `Overlay.NetworkKeys` | module/src/local/ngx_http_waf_ds_live.c:118-139 | the keys of networks are exactly family, prefix length and address |
| `Overlay.BanLivesOn` | module/src/local/ngx_http_waf_ds_live.c:189-194 | a refresh by a ban is unexpired whenever the entry was, if and only if the entry had an expiry or the ban has none |
| `Overlay.BanEndsLastingEntry` | module/src/local/ngx_http_waf_ds_live.c:189-194 | an entry without expiry that a ban ends |
| `Overlay.Slot.Delete` | module/src/local/ngx_http_waf_ds_live.c:687-716 | removes exactly that node and keeps count, per-length counters and set hash exact |
| `Overlay.Slot.Drop` | module/src/local/ngx_http_waf_ds_live.c:230-250 | deletes the key if present and says whether it was |
| `Overlay.Slot.Mark` | module/src/local/ngx_http_waf_ds_live.c:253-271 | sets the generation of a present entry, changes nothing else |
| `Overlay.Slot.Begin` | module/src/local/ngx_http_waf_ds_live.c:398-416 | the next generation modulo 2^32, never zero, or 0 when there is no memory for the overlay |
| `Overlay.Slot.Sweep` | module/src/local/ngx_http_waf_ds_live.c:426-468 | removes exactly the nodes of other generations between the old cursor and the new one in tree order, and says how many |
| `Overlay.Slot.Reset` | module/src/local/ngx_http_waf_ds_live.c:368-395 | empties the overlay with all counters |
| `Overlay.Slot.Hit` | module/src/local/ngx_http_waf_ds_live.c:274-298 | true exactly for a present, unexpired entry |
| `Overlay.Slot.Probe` | module/src/local/ngx_http_waf_ds_live.c:301-365 | although it skips empty prefix lengths: true exactly when some unexpired stored network without host bits holds the address (a stored key with host bits never matches) |
| `Overlay.MaskedIsTheNetwork` | module/src/local/ngx_http_waf_ds_live.c:301-365 | the masked address is the one network of its length, without host bits, that holds the address, bit by bit |
| `Overlay.HoldsIffBuilt` | module/src/local/ngx_http_waf_ds_live.c:301-365 | a stored key holds the address exactly when it is the key the probe builds for that length |
| `Overlay.XorRemove` | module/src/local/ngx_http_waf_ds_live.c:687-716 | the set hash is the hash of any one node combined with the set hash of the rest, so the order of updates does not matter |
| `Overlay.LeastExists` | module/src/local/ngx_http_waf_ds_live.c:719-754 | the tree order by crc and bytes has a least element in every nonempty set of keys |
| `Mirror.MirrorsTheKeeper` | module/src/local/ngx_http_waf_dataset.c:1581-1941 | over every interleaving: whenever the slot is not syncing, the keeper-hashed entries are the keeper's set at (epoch, seq), less keys whose record was refused, plus entries a ban revived |
| `Mirror.ExactMirror` | module/src/local/ngx_http_waf_dataset.c:1581-2002 | the mirror is exact if and only if nothing was refused and nothing revived; then its set hash is the keeper's and a tick finds no divergence |
| `Mirror.AppliedInOrder` | module/src/local/ngx_http_waf_dataset.c:1581-1733 | applications never overlap, and every package follows the application before it by exactly one |
| `Mirror.GenerationsFresh` | module/src/local/ngx_http_waf_ds_live.c:398-423 | outside a snapshot every entry carries the current generation, so the generation a snapshot begins with is carried by none |
| `Mirror.SnapshotLeaves` | module/src/local/ngx_http_waf_dataset.c:1736-1941 | a finished snapshot leaves exactly the accepted add-keys and the keys banned meanwhile; without ban and failed allocation it loses no well-formed key, whatever filled the overlay before |
| `Mirror.NoGap` | module/src/local/ngx_http_waf_dataset.c:1772-1905 | an entry the snapshot keeps is present in every state from its beginning to its end |
| `Mirror.CursorStaysValid` | module/src/local/ngx_http_waf_dataset.c:1862-1871 | the sweep's cursor is still a node of the tree when the lock is taken again |
| `Mirror.NextKeeps` | module/src/local/ngx_http_waf_dataset.c:1581-1941 | every step of any worker or ban keeps the invariant |
| `Mirror.BansLiveOn` | module/src/local/ngx_http_waf_ds_live.c:160-199 | in every run a ban on an entry keeps it in force for as long as it was, if and only if the entry had an expiry or the ban has none |
| `Mirror.SweepTurnsAreASweep` | module/src/local/ngx_http_waf_ds_live.c:426-468 | turns of the sweep one after the other remove exactly what the overlay's batch sweep removes between the same cursors |
| `Mirror.MirrorHash` | module/src/local/ngx_http_waf_dataset.c:1944-2002 | an exact mirror has the set hash the keeper announces, entries of local bans not showing |
| `MirrorTimes.MirroredExpiry` | module/src/local/ngx_http_waf_dataset.c:1581-1941 | in every run a mirrored key was set by a last record of the keeper: unless a ban on it came after, it is in force exactly as long as that record says; with bans after it, all limited in time, as long as the record or one of the bans says |
| `MirrorTimes.OneOffDiverges` | module/src/local/ngx_http_waf_dataset.c:1944-2002 | a mirror with exactly one key missing or one too many is told that it diverged by every tick with the keeper's hash |
| `MirrorTimes.SnapshotChecked` | module/src/local/ngx_http_waf_dataset.c:1907-1941 | the check at the end of a snapshot fails exactly if a tick would report divergence |
| `MirrorTimes.NeverBackwards` | module/src/local/ngx_http_waf_dataset.c:1581-1941 | within an epoch the mirror's sequence number never falls |
| `MirrorExample.BanRevivesEntry` | module/src/local/ngx_http_waf_ds_live.c:160-199 | a reachable state without a lost record whose keeper entries are not the keeper's set |
| `Publish.NoUseAfterFree` | module/src/local/ngx_http_waf_dataset.c:984-1069 | for any number of readers and publishes: no reader holds a freed set, the current set is not freed, none is freed twice |
| `Publish.ReplacedSetsAccounted` | module/src/local/ngx_http_waf_dataset.c:984-1043 | every replaced set is exactly one of retired, freed, leaked or in the publisher's hand |
| `Publish.LeaksOnlyUnderPressure` | module/src/local/ngx_http_waf_dataset.c:984-1043 | a set leaks only when every retire slot was taken and a reader was counted |
| `Publish.QuietPublishDrains` | module/src/local/ngx_http_waf_dataset.c:984-1043 | a publish that saw no reader leaves every retire slot empty |
| `Zone.Shm.Find` | module/src/local/ngx_http_waf_dataset.c:655-680 | the bound slot of that name, or that there is none |
| `Zone.Shm.Oldest` | module/src/local/ngx_http_waf_dataset.c:705-719 | the free slot released longest ago, or that none is left |
| `Zone.Shm.Reserve` | module/src/local/ngx_http_waf_dataset.c:647-735 | releases exactly the unnamed slots older than the committed generation, plans a slot for every dataset (newcomers on the free slots released longest ago), and refuses if and only if the newcomers outnumber the free slots |
| `Zone.Shm.Settle` | module/src/local/ngx_http_waf_dataset.c:786-814 | binds the planned slots under their names with the new generation |
| `Zone.Shm.Commit` | module/src/local/ngx_http_waf_dataset.c:822-851 | the committed generation only grows |
| `Zone.LiveConfigurationsServed` | module/src/local/ngx_http_waf_dataset.c:619-851 | over any run of inits (refused and failed ones too) and worker starts: every initialised configuration not older than the committed one has a slot bound under each dataset's name at its index, all different, and no two bound slots share a name |
| `Zone.SharedNameSharedSlot` | module/src/local/ngx_http_waf_dataset.c:652-681 | two live configurations that name the same dataset read the same slot |
| `Zone.RefusedOnlyWhenFull` | module/src/local/ngx_http_waf_dataset.c:683-733 | a refusal means the newcomers and the slots still declared by the new or a live configuration need more than all slots |
| `Zone.BindAt` | module/src/local/ngx_http_waf_dataset.c:786-814 | after binding, the planned slots bear their names and the generation and the others are untouched |
| `CidrSet.Uniq` | module/src/local/ngx_http_waf_dataset.c:2549-2566 | in place, the array's front becomes the input without adjacent duplicates |
| `CidrSet.DedupeKeeps` | module/src/local/ngx_http_waf_dataset.c:2533-2566 | dropping duplicates of a sorted list keeps it sorted with the same elements |
| `CidrSet.BuildCidr` | module/src/local/ngx_http_waf_dataset.c:2569-2636 | the starts of the ranges, and at each index the greatest end so far |
| `CidrSet.LookupCidr` | module/src/local/ngx_http_waf_dataset.c:1268-1331 | the binary search answers true exactly when some range contains the address |
| `CidrSet.Answer` | module/src/local/ngx_http_waf_dataset.c:2533-2636 | sort, duplicates, cover and search together answer exactly whether some listed range contains the address |
| `CidrSet.Contains4` | module/src/local/ngx_http_waf_dataset.c:2709-2723 | a range holds exactly the addresses whose numbers lie between its ends |
| `CidrSet.Contains6` | module/src/local/ngx_http_waf_dataset.c:2726-2739 | the same for octets read as one number, the first octet the highest |
| `CidrSet.Total4` | module/src/local/ngx_http_waf_dataset.c:2709-2723 | the numeric order of the 32-bit form is a total order, as the search needs |
| `CidrSet.Total6` | module/src/local/ngx_http_waf_dataset.c:2726-2739 | the byte-wise order of the 16-byte form is a total order, as the search needs |
| `StringSet.StrSet.Probe` | module/src/local/ngx_http_waf_dataset.c:1334-1363 | ends, hits exactly the members, and on a miss leaves the empty slot where the string belongs |
| `StringSet.StrSet.Add` | module/src/local/ngx_http_waf_dataset.c:2690-2701 | one more string, all earlier ones still found |
| `StringSet.BuildStr` | module/src/local/ngx_http_waf_dataset.c:2639-2706 | the set of exactly the given strings, duplicates or not, unless one is longer than the limit, all together are, or the slab has no room; never more than half full |
| `StringSet.TableSize` | module/src/local/ngx_http_waf_dataset.c:2651-2655 | the smallest power of two from 8 on that is at least twice the number of strings |
| `StringSet.EmptySlot` | module/src/local/ngx_http_waf_dataset.c:2651-2655 | a table with fewer taken slots than slots has an empty one |
| `StringSet.MissMeansAbsent` | module/src/local/ngx_http_waf_dataset.c:1347-1352 | the first empty slot on a string's way proves it absent |
| `StringSet.Inserted` | module/src/local/ngx_http_waf_dataset.c:2696-2698 | writing an entry into the probed slot keeps every other entry reachable |
| `Utf8.Check` | module/src/codec/ngx_http_waf_json.c:43-100 | the length of the character by the table in section 4 of RFC 3629, or the length of the longest prefix some character begins with |
| `Utf8.PartialMeansPrefix` | module/src/codec/ngx_http_waf_json.c:37-41 | an ill-formed prefix is partial exactly when some well-formed character begins with it |
| `Utf8.PrefixUnique` | module/src/codec/ngx_http_waf_json.c:43-100 | no character begins with another |
| `Utf8.NumberOfEncoding` | module/src/codec/ngx_http_waf_json.c:12-35 | the encoding of a scalar value reads back as that value |
| `Utf8.EncodingOfNumber` | module/src/codec/ngx_http_waf_json.c:12-35 | every well-formed sequence is the encoding of one scalar value, never a surrogate |
| `Utf8.SanitizeIsIdentityIffValid` | module/src/codec/ngx_http_waf_json.c:139-153 | repair changes exactly the strings that are not UTF-8, and a second time nothing |
| `JsonText.WriteReadsBack` | module/src/codec/ngx_http_waf_json.c:125-199 | for every byte string, decoding what was written gives the input with each ill-formed prefix replaced by U+FFFD; the input itself if it is UTF-8 |
| `JsonText.Write` | module/src/codec/ngx_http_waf_json.c:125-199 | at most 6 bytes for each input byte and two quotes |
| `JsonText.DecoderIsRfc8259` | module/src/codec/ngx_http_waf_json.c:423-572 | the decoder accepts a text exactly when it is a string of section 7 of RFC 8259 up to its own closing quote, and yields what its characters mean: pairs joined, lone surrogates replaced |
| `JsonText.JoinIsUtf16` | module/src/codec/ngx_http_waf_json.c:541-563 | the surrogates that section 2.1 of RFC 2781 gives for a scalar value join to that value |
| `JsonText.PairReads` | module/src/codec/ngx_http_waf_json.c:480-572 | the two escapes of every scalar value above U+FFFF, in hexadecimal digits of either case, decode to its encoding |
| `JsonText.EscapeReads` | module/src/codec/ngx_http_waf_json.c:480-572 | the escape of any other number decodes to its encoding, that of a lone surrogate to U+FFFD |
| `JsonText.ShortReads` | module/src/codec/ngx_http_waf_json.c:519-533 | the eight two-character escapes decode to their characters, any other is refused |
| `JsonText.DecodedIsUtf8` | module/src/codec/ngx_http_waf_json.c:423-572 | whatever was decoded is UTF-8 |
| `JsonText.ScanFindsTheQuote` | module/src/codec/ngx_http_waf_json.c:383-403 | the prescan finds the decoder's closing quote, and the decoded bytes fit before it |
| `JsonGrammar.ReaderIsRfc8259` | module/src/codec/ngx_http_waf_json.c:797-910 | the reader stops at a position if and only if a value of sections 2 to 7 of RFC 8259, nested within the bound, ends there and, if a number, cannot go on with what follows |
| `JsonGrammar.Marks` | module/src/codec/ngx_http_waf_json.c:797-910 | the marks and words are those of RFC 8259, sections 2 and 3 |
| `JsonGrammar.CutNumberRefused` | module/src/codec/ngx_http_waf_json.c:759-794 | `1.` is refused although it begins with a value |
| `JsonGrammar.ZeroStandsAlone` | module/src/codec/ngx_http_waf_json.c:759-794 | `01` is read as `0` |
| `JsonGrammar.ValueSound` | module/src/codec/ngx_http_waf_json.c:797-910 | every accepted text has a concrete syntax tree of at most that depth, which cannot go on with what follows |
| `JsonGrammar.ValueComplete` | module/src/codec/ngx_http_waf_json.c:797-910 | every concrete syntax tree of at most that depth is accepted to its end, if it is no number that could go on with what follows |
| `JsonGrammar.NumberComplete` | module/src/codec/ngx_http_waf_json.c:759-794 | every number of section 6 of RFC 8259 is read to its end, if its own form cannot go on with what follows: after an exponent a digit, after a fraction also `e` or `E`, after a whole part also a point, and no digit after a zero |
| `JsonCodec.Writer.Raw` | module/src/codec/ngx_http_waf_json.c:113-122 | appends all or nothing and reports overflow |
| `JsonCodec.Writer.String` | module/src/codec/ngx_http_waf_json.c:125-199 | appends the whole string exactly when it fits, and reports overflow exactly otherwise |
| `JsonCodec.Reader.Unit` | module/src/codec/ngx_http_waf_json.c:480-572 | one character decoded, or the refusal, as the decoder function says |
| `JsonCodec.Reader.StringBuf` | module/src/codec/ngx_http_waf_json.c:423-477 | error exactly for no string, declined exactly for one longer than the buffer, otherwise its bytes; a string is read to its end whether it fits or not |
| `JsonCodec.Reader.String` | module/src/codec/ngx_http_waf_json.c:370-410 | accepts every string whatever the prescan, with a buffer that is never too small |
| `JsonCodec.Reader.Int` | module/src/codec/ngx_http_waf_json.c:613-671 | the decimal value, refused exactly for no digit, a leading zero, a value out of range, or a fraction or exponent |
| `JsonCodec.Reader.NumberSkip` | module/src/codec/ngx_http_waf_json.c:759-794 | consumes the number the grammar's reader finds |
| `JsonCodec.Reader.KeySkip` | module/src/codec/ngx_http_waf_json.c:719-736 | consumes a member name and its colon |
| `JsonCodec.Reader.Unwind` | module/src/codec/ngx_http_waf_json.c:875-908 | closing brackets from the stack is what the recursion does on return |
| `JsonCodec.Reader.Skip` | module/src/codec/ngx_http_waf_json.c:797-910 | the loop with its 16-byte stack agrees on every input with recursive descent to depth 16 |
| `NameLists.NameListed` | module/src/body/ngx_http_waf_body.c:1252-1273 | some listed name equals it without regard to ASCII case |
| `NameLists.FoldsCase` | module/src/body/ngx_http_waf_body.c:1252-1273 | names match exactly if they are as long and differ at most in the case of ASCII letters |
| `NameLists.LookalikeCharacters` | agent/internal/retain/filter.go:32-39 | the two characters the agent folds to ASCII are U+017F and U+212A |
| `NameLists.ListsDrop` | module/src/body/ngx_http_waf_body.c:286-297 | denied, or not among the allowed when some are |
| `NameLists.ListsCover` | module/src/body/ngx_http_waf_body.c:308-347 | yes exactly when, for every name, the own lists drop what the capture drops and drop or hash what it hashes |
| `NameLists.EqualFold` | agent/internal/retain/filter.go:32-39 | the agent's comparison of two names: ASCII case, and the two characters that fold to ASCII |
| `NameLists.AgentNameListed` | agent/internal/retain/filter.go:32-39 | some listed name equals it by that comparison |
| `NameLists.KeepName` | agent/internal/retain/filter.go:41-49 | neither denied nor missing among the allowed when some are, by that comparison |
| `NameLists.FoldsCharacterwise` | agent/internal/retain/filter.go:32-39 | an ASCII name equals a UTF-8 name exactly when they do character by character, U+017F standing for `s` and U+212A for `k` |
| `NameLists.LookalikesExist` | agent/internal/retain/filter.go:32-49 | some name is masked for the agent and not for the module exactly when a name masked and kept by both has an `s` or a `k` in it |
| `Headers.FoldSeen` | agent/internal/retain/filter.go:63-89 | a name that folds to ASCII, before or after its repair on the way through JSON, needed no repair, so the agent lists a name as it lists the repaired one |
| `Headers.HeadersCollect` | module/src/body/ngx_http_waf_body.c:1405-1510 | the text of the longest beginning of the capture view (or of all headers, raw) within the limit, truncated exactly if something is left, in a buffer that is never too small, the pair rolled back at the limit included; read back it gives that part of the view, names and values repaired |
| `Headers.TextReadsBack` | module/src/body/ngx_http_waf_body.c:1464-1510 | read with the decoder, pair by pair and the name first, the text of a view is the view, names and values repaired, in order and to the end |
| `Headers.FilterHeaders` | agent/internal/retain/filter.go:63-89 | the archive view of the headers, values hashed before kept |
| `Headers.HeadersLaw` | module/src/body/ngx_http_waf_body.c:299-347 | for every list of headers with UTF-8 values the archive the agent makes of the text of the capture view equals the one it makes of the text of all headers, if and only if lists_cover says yes and no name both sides hash has an `s` or a `k` in it |
| `Headers.CoveredHeaders` | module/src/body/ngx_http_waf_body.c:1464-1488 | with covering lists the two archives are equal exactly when no value hashed on both sides changes its hash by repair, and no value the agent alone takes for hashed differs from its hash |
| `Headers.RepairChangesHash` | agent/internal/retain/filter.go:51-61 | a Latin-1 value masked on both sides: equal archives exactly if the hash collides |
| `NameLists.CoversItself` | module/src/body/ngx_http_waf_body.c:2566-2569 | an archive without lists of its own may use the capture's |
| `QueryArgs.DecodeName` | module/src/body/ngx_http_waf_body.c:1276-1307 | the name as matched: plus signs and valid percent escapes decoded |
| `QueryArgs.NextArg` | module/src/body/ngx_http_waf_body.c:1606-1636 | the next part of the query string and where the one after it begins |
| `QueryArgs.ArgsFilter` | module/src/body/ngx_http_waf_body.c:1567-1672 | the kept parts joined, denied ones gone and masked values hashed, within the buffer allocated for them |
| `QueryArgs.FilterArgs` | agent/internal/retain/filter.go:91-122 | the agent's view of the query string, parts without a name dropped |
| `QueryArgs.SplitJoin` | agent/internal/retain/filter.go:100-119 | splitting what was joined gives the parts back |
| `QueryArgs.EscapedReads` | module/src/body/ngx_http_waf_body.c:1276-1307 | every name can be sent: percent-encoding it reads back as that name |
| `QueryArgs.FormReads` | module/src/body/ngx_http_waf_body.c:1276-1307 | a name as a form sends it, spaces as plus signs, reads back as that name |
| `QueryArgs.CoveredArgs` | agent/internal/retain/filter.go:91-122 | with covering lists, for every query string, the agent makes the same bytes of the capture view as of the original exactly when no part's name is one the agent alone takes for hashed, with a value that is not its own hash |
| `QueryArgs.ArgsLaw` | module/src/body/ngx_http_waf_body.c:299-347 | for every query string the archive made from the capture view is byte for byte the archive made from the original, if and only if lists_cover says yes and no name both sides hash has an `s` or a `k` in it |
| `QueryArgs.MaskedValueInClear` | agent/internal/retain/filter.go:32-61 | with `sid` masked on both sides, `%C5%BFid=x` is archived in clear from the capture view and hashed from the original |
| `Resp.Connection.Parse` | module/src/body/drv_redis.c:947-1107 | whatever is in the buffer, the result is that of taking its bytes one by one, with handlers that send commands and detach waiting operations in between |
| `Resp.Connection.Read` | module/src/net/ngx_http_waf_link.c:268-330 | a read carries on from the unfinished line; the link is dropped exactly for a refused reply or a line that fills the buffer |
| `Resp.Connection.Drain` | module/src/body/drv_redis.c:1317-1335 | entries fail from the head on, handlers detaching others in between, until none is left and the parser starts afresh |
| `Resp.DrainFailsAll` | module/src/body/drv_redis.c:1317-1335 | draining settles exactly the entries of the queue, each once, in order and with an error |
| `Resp.Connection.TakeBulk` | module/src/body/drv_redis.c:965-984 | collecting a payload in pieces is collecting it byte by byte |
| `Resp.Connection.Receive` | module/src/net/ngx_http_waf_link.c:268-330 | an arrival of any length, read in pieces as long as the buffer has room for, does what its bytes do one by one; false exactly if the link was dropped |
| `Resp.Connection.ReceiveAll` | module/src/net/ngx_http_waf_link.c:268-330 | the same for any number of arrivals |
| `Resp.AnnouncedLength` | module/src/body/drv_redis.c:1009-1053 | a bulk header announces the decimal number between dollar sign and CR, and nothing if that is no number within range |
| `Resp.PayloadDelivered` | module/src/body/drv_redis.c:947-1107 | a string on the wire, its length written out, settles the GET at the head with exactly its bytes, if there is room |
| `Resp.PayloadTooLong` | module/src/body/drv_redis.c:1059-1078 | one longer than the operation takes is read past, and the GET fails |
| `Resp.MissingKeyDeclined` | module/src/body/drv_redis.c:1053-1063 | `$-1` declines the GET at the head |
| `Resp.LineSettles` | module/src/body/drv_redis.c:1020-1050 | a status or integer settles the head well, an error line with an error |
| `Resp.FragmentsDoNotMatter` | module/src/body/drv_redis.c:947-1260 | two connections that read the same bytes, cut differently, settle the same entries in the same order with the same data and end in the same state |
| `RedisRuns.CompletesAtMostOnce` | module/src/body/drv_redis.c:1139-1335 | in every run each operation's handler runs at most once and inflight is the length of the queue |
| `RedisRuns.NeverAfterPoolGone` | module/src/body/drv_redis.c:1279-1314 | a handler runs only for an operation that still waits, never once its pool is gone |
| `RedisRuns.DrainedExactlyOnce` | module/src/body/drv_redis.c:1317-1335 | entries of a lost connection fail one at a time, with pools going away in between; when none is left nothing is in flight, and every operation sent completed, once, unless its pool is gone |
| `RedisRuns.RepliesMatchCommands` | module/src/body/drv_redis.c:947-1260 | the i-th reply of a connection settles the i-th command sent on it, through timeouts and pools gone in between; an operation that still waits gets exactly what that reply says |
| `RedisRuns.RunsMatch` | module/src/body/drv_redis.c:947-1260 | the same when memory may be refused: an operation that still waits then gets what its reply says or an error |
| `RedisRuns.FramesAreTheBytes` | module/src/body/drv_redis.c:1007-1105 | the replies are those of the bytes received, each with exactly the payload its header announced, nothing added or lost |
| `RedisRuns.ParsingIsRunning` | module/src/body/drv_redis.c:947-1260 | what the parser makes of an arrival, handlers that send and detach included, is a run of the connection, so the results on runs hold of it |
| `RedisRuns.HeardOnce` | module/src/body/ngx_http_waf_body.c:1733-1770 | however often a driver runs the handler inside and after the call, the caller hears of the result exactly once |
| `Nats.Bus.Parse` | module/src/bus/ngx_http_waf_bus_nats.c:259-341 | skipping, collecting and leaving a payload in the buffer all give what taking the bytes one by one gives |
| `Nats.Bus.Read` | module/src/net/ngx_http_waf_link.c:268-330 | a read carries on from the unfinished line or payload; the link is dropped exactly for a refused line or one that fills the buffer |
| `Nats.Bus.TakeHead` | module/src/bus/ngx_http_waf_bus_nats.c:455-491 | which of the three ways a payload takes |
| `Nats.Bus.Receive` | module/src/net/ngx_http_waf_link.c:268-330 | an arrival of any length, read in pieces as long as the buffer has room for, does what its bytes do one by one; false exactly if the link was dropped |
| `Nats.Bus.ReceiveAll` | module/src/net/ngx_http_waf_link.c:268-330 | the same for any number of arrivals |
| `Nats.FragmentsDoNotMatter` | module/src/bus/ngx_http_waf_bus_nats.c:259-491 | two parsers that read the same bytes, cut differently, deliver the same messages and end in the same state |
| `Nats.MessageDelivered` | module/src/bus/ngx_http_waf_bus_nats.c:398-632 | a message on the wire, from the words of its MSG or HMSG line on, brings exactly its payload without headers and line end (or, for a verdict whose headers begin with the status 503, that nobody answers), if and only if routed and either short enough for the buffer or a dataset's within the limit with memory to be had; the stream goes on behind it |
| `Nats.DeliverIs` | module/src/bus/ngx_http_waf_bus_nats.c:595-632 | what follows the headers is delivered without the line end |
| `Nats.HeaderClassified` | module/src/bus/ngx_http_waf_bus_nats.c:344-396 | the two kinds of message lines are told apart and their words found |
| `Nats.ProtocolLine` | module/src/bus/ngx_http_waf_bus_nats.c:344-396 | other lines leave the parser as it is, an error line ends it |
| `Nats.HeaderRead` | module/src/bus/ngx_http_waf_bus_nats.c:398-453 | a header line of words is routed by its subscription and subject and takes its lengths from its last words; refused exactly for a length that is no number or headers longer than the message |
| `Nats.TokensOfWords` | module/src/bus/ngx_http_waf_bus_nats.c:914-936 | the words of a line are read back as they were sent |
| `Sha256.Sha.Block` | module/src/body/ngx_http_waf_sha256.c:138-188 | the compression of section 6.2.2 of FIPS 180-4 on the chained state |
| `Sha256.Sha.Update` | module/src/body/ngx_http_waf_sha256.c:60-96 | what was fed is extended by exactly the data, the partial block and the whole ones in step |
| `Sha256.Sha.Final` | module/src/body/ngx_http_waf_sha256.c:99-135 | the hash of the padded message, where the padding spills into a further block too |
| `Sha256.Digest` | module/src/body/ngx_http_waf_sha256.c:43-188 | for every way of splitting a message, the hash FIPS 180-4 defines for the whole |
| `Sha256Standard.ConstantsAreRoots` | module/src/body/ngx_http_waf_sha256.c:9-58 | the round constants are the fractions of the cube roots of the first 64 primes, the initial state those of the square roots of the first eight |
| `Sha256Standard.ScheduleOfAbc` | module/src/body/ngx_http_waf_sha256.c:144-154 | words of the schedule of the standard's first example message |
| `Sha256Standard.Round0OfAbc` | module/src/body/ngx_http_waf_sha256.c:156-178 | the first round of that example |
| `Sha256Standard.Round1OfAbc` | module/src/body/ngx_http_waf_sha256.c:156-178 | the second round of that example |
| `Sha256Standard.OctetsToWord` | module/src/body/ngx_http_waf_sha256.c:144-149 | the first word of that example's block, the highest octet first |
| `Sha256Standard.WordToOctets` | module/src/body/ngx_http_waf_sha256.c:125-135 | and back |
| `Sha256Standard.LengthToOctets` | module/src/body/ngx_http_waf_sha256.c:99-123 | the length field, the lowest octet last |
| `Sha256.FillSchedule` | module/src/body/ngx_http_waf_sha256.c:144-154 | the message schedule of section 6.2.2 of FIPS 180-4 |
| `Sha256.RunRounds` | module/src/body/ngx_http_waf_sha256.c:156-178 | the 64 rounds of section 6.2.2 of FIPS 180-4 |
| `Holds.CounterIsExact` | module/src/body/ngx_http_waf_body.c:1187-1249 | at every moment of every run the counter is the number of counted operations whose hold flag is set, within the limit |
| `Holds.NothingHeldAfterwards` | module/src/body/ngx_http_waf_body.c:2592-2626 | from the end of a request on none of its operations holds, in any order of placement, answer, hand-over, release, frame end and abandonment, if and only if its cleanup was registered or no frame operation was left holding |
| `Holds.IdleWorkerHoldsNothing` | module/src/body/ngx_http_waf_body.c:2592-2626 | with every request over the counter is zero if and only if each of them ended so |
| `Holds.EndedFramesAreClean` | module/src/stream/ngx_http_waf_frame.c:2284-2297 | a request whose frames were ended first is one of those |
| `Holds.TornDownInItsFrame` | module/src/stream/ngx_http_waf_frame.c:1455-1464 | a request torn down inside a frame with no cleanup registered stays counted |
| `Holds.HandOverEndsHolds` | module/src/body/ngx_http_waf_body.c:2063-2122 | handing a request over ends the holds of its own phase and no others |
| `Holds.ReleaseEndsPlaced` | module/src/body/ngx_http_waf_body.c:2125-2178 | releasing a request empties its placed places and ends their holds |
| `Holds.FrameEndEndsHold` | module/src/stream/ngx_http_waf_frame.c:2144-2184 | the end of a frame leaves nothing of it held, awaited or pointed to |
| `Holds.SettleDecides` | module/src/body/ngx_http_waf_body.c:1675-1709 | an answer makes the operation placed if it succeeds, and gives it up with its hold if it fails |
| `Holds.NeverOverwritten` | module/src/body/ngx_http_waf_body.c:1111-1118 | a place is empty whenever an operation is put there |
| `Holds.SettleKeeps` | module/src/body/ngx_http_waf_body.c:1675-1709 | a store's answer, late or not, keeps the accounting |
| `Holds.FrameEndKeeps` | module/src/stream/ngx_http_waf_frame.c:2144-2184 | wiping a frame's phase context loses no held operation |
| `Holds.FinishKeeps` | module/src/body/ngx_http_waf_body.c:2125-2178 | the end of a request keeps the accounting, and releases all of its operations if and only if its cleanup was registered or no frame operation holds |
| `Parking.PublishedAtMostOnce` | agent/internal/retain/batch.go:125-222 | in every interleaving of workers, size flushes, timers and closing a decision is published at most once |
| `Parking.PublishedWhenSettled` | agent/internal/retain/batch.go:125-179 | what is published of a parked decision has every archived kind settled, each as its own move ended |
| `ParkingRuns.PublishedOutcome` | agent/internal/retain/batch.go:101-179 | each published kind has the outcome of the very step that ended its own move |
| `Parking.PublishedExactlyOnce` | agent/internal/retain/retain.go:101-139 | a decision neither queued nor about to be published, with no item left in a basket or flush, was published exactly once |
| `Parking.PushKeeps` | agent/internal/retain/batch.go:48-71 | looking up an archived kind and pushing its item, into a closed, filling or full basket, neither loses nor repeats any |
| `Parking.TakenOutKeeps` | agent/internal/retain/batch.go:73-99 | a timer or the closing takes a basket's items out once |
| `ParkingRuns.CloseDrains` | agent/internal/retain/retain.go:119-131 | when Close has returned, a decision was published exactly once if and only if no timer and no caller of Handle still has it in hand |
| `ParkingRuns.CloseDrainsUntimed` | agent/internal/retain/retain.go:119-131 | for every decision and set of kinds with a time limit: all runs publish the queued decision exactly once before Close returns, if and only if no kind that is archived and located is among them |
| `ParkingRuns.UntimedIsDrained` | agent/internal/retain/batch.go:73-105 | such a decision is published when Close returns, whatever timers do on other kinds and callers of Handle with other decisions |
| `ParkingRuns.CloseOvertakesTimer` | agent/internal/retain/batch.go:73-105 | for every other decision a run in which Close returns with it unpublished |
| `ParkingRuns.ReadsAndWritesMeet` | agent/internal/retain/batch.go:101-222 | for every decision: in some run a read of its map of locators (by enqueue, move or rendering) and a write (by complete) are due on two threads, if and only if it archives a kind behind one that is archived and located |
| `ParkingRuns.FollowingMeets` | agent/internal/retain/batch.go:181-222 | such a run for every such decision, with kinds that have no locator looked up as well |
| `ParkingRuns.MovesReadTheOriginal` | agent/internal/retain/batch.go:101-139 | whatever is still to be pushed or moved has a locator not rewritten yet |
| `Parking.CompleteKeeps` | agent/internal/retain/batch.go:125-149 | the counter is the number of kinds not settled, and exactly the last one publishes |
| `Parking.HandleKeeps` | agent/internal/retain/retain.go:101-117 | a decision handed over is in exactly one place, queued or published at once |

## Left out

- `ngx_http_waf_ds_slot_reset`'s wait of five seconds for `syncing`, a worker that dies while it syncs, and the wrap of millisecond counters.
- The byte layout of keeper packages (`pack_head`, `pack_next`) and of dataset files; a package is a list of records.
- What resetting a slot does to a dataset whose type or mode changed; slots are modelled by name, generation and binding.
- Siphash, crc32, MD5, AES and RSA as such.
- `ngx_http_waf_ds_stream.c`: timers and fetching around the two apply functions.
- The wave and verdict runtime, the in-flight slot table, rate limits, the preview and the breaker.
- Directive parsing, configuration merging and the message layout: long, but flat.
- The limit on query strings and `cutToLimit`; the laws for name lists are about whole views.
- Headers.HeadersLaw: listed names are ASCII, because only the folding of ASCII and of what folds to it is modelled; values are UTF-8, because the law fails otherwise (see Findings).
- QueryArgs.ArgsLaw: listed names are ASCII as for headers, and not empty, because the agent drops parts without a name whatever the lists say; `QueryArgs.CoveredArgs` needs only the former.
- NUL bytes in configured names, at which `ngx_strncasecmp` would stop.
- Go's `encoding/json`; the agent is taken to read what the module's own decoder is proved to read.
- `nats_route`: the routing of a subject is a parameter; the handshake lines have no effect on framing.
- `redis_pick`, reconnection and the writing of commands, which are sent whole or not at all.
- S3 and Redis clients of the agent, deletion of moved keys, and rendering of locators.
- `ngx_http_waf_jp_object`, `jp_array`, `jp_member`, `jp_element`: thin walks over the same pieces as `jp_skip`.
- The error texts of the JSON reader; a failed call leaves its position open.
- CidrSet.Answer: the sort itself is not modelled; its result is any sorted permutation.
- Parking.PublishedExactlyOnce: the mutex that serialises flushes of one basket is left open, so more interleavings are covered than can happen; the runs that are shown to exist never have two flushes of one basket.
- The sweeper of the archive and what a publication after Close finds closed.
