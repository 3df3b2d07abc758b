# A verified model of the gateway's request core

The gateway relays AI requests to upstream channels. This project models, in Dafny, the parts of it
where a mistake is hardest to see, and proves what they promise for every input, every run and every
interleaving:

- **Request bodies as JSON, without materialising them.** A recursive-descent scanner reads a
  random-access source through a sliding window and returns byte spans; a rewriter splices an edited
  object from those spans; a second, unrelated algorithm (a delimiter stack over a slice) extracts
  fields and walks arrays. The grammar of RFC 8259, sections 2 to 7, is written down as trees and
  their printed text (`JsonGrammar`), apart from any parser. The scanner is proved to accept exactly
  the printed documents within its limits, the rewriter to be a round trip, and the two algorithms
  to agree. What the name of a key means, escape by escape, is given without either decoder
  (`KeyEscapes`).
- **The replayable request body.** A stream is spooled to memory or disk under an exact limit; both
  kinds of storage refine one abstract machine; the usage counters are a ledger that balances over
  every run; and the per-request context hands out the same body until it is released, and
  then leaves as much in use as before.
- **Order locks.** Reference-counted locks per order, as small steps of any number of threads, and
  the two payment handlers that run under them: at most one holder, at most one credit, and exactly
  one for a paid order if the database accepts every write.
- **Smaller machines.** The sliding-window rate limiter, the relay retry loop, the upstream-model
  detect/apply cycle, multi-key channel management down to the stored row, and the price-difference
  report.

Code that changes state step by step is modelled by classes and loops, proved against specification
functions; what the code promises is then proved of those functions. `dafny verify dfyconfig.toml`
checks everything.

## Where the code is not what one might expect

- The depth counter rises by two for each container level, so the scanner's limit of 1000 admits
  about 500 nested containers (`JsonGrammar.DeepIsTwicePerLevel`); Go's own validity check allows
  10000 (`StdJson.JsonValidExact`). An edited object can therefore be valid and still not be
  indexable again: `JsonRoundTrip.RewriteRoundTrip` says exactly when.
- A replacement or addition is passed through with its surrounding white space; what is indexed
  again is the value without it (`Stripped`).
- An escape-free key that is not well-formed UTF-8 is read differently by the two JSON files:
  the indexer repairs it, the extractor keeps its bytes. `JsonExtract.KeyNamesAgree` gives the exact
  condition.
- The detect/apply cycle does not settle if an added model name holds a comma, or if one is itself an
  ignored pattern: adding it forgets the pattern. `UpstreamModels.DetectApplyFixpoint` says that these
  are the only cases.
- `delete_disabled_keys` on a channel whose keys are all automatically disabled deletes none of
  them: the empty key text is not written, and since the status lists are, all keys come back
  enabled. `KeyStore.DeleteDisabledExact` says that this is the only case where the survivors read back.
- Deleting a key writes the others back as lines. A key that holds a line break, as one taken from an
  indented JSON array can, is torn apart by the next read (`KeyStore.BrokenKey`); a blank key left at
  either end is lost, and what is recorded about it is then out of range (`KeyStore.BlankLineLost`).
  `KeyStore.Manage` says exactly when size, indices and lists stay right.
- A rate limit whose duration is more than a second above the limiter's expiration is forgotten too soon;
  the expiration is the first one set, whichever limit set it. `RateLimiter.ExactIff` gives the exact
  condition.
- The text `[]` has no keys and is counted as one (`KeyStore.EmptyArrayCounted`).
- The provider adaptors that rewrite a request decode it first, which caches it; the body they then
  set is never fetched (`BodyContext.ConversionLost`).
- A null price that differs from the local one, or a price that is the text `same`, can be lost from
  the difference report (`RatioSync.NullIsLost`; `RatioSync.ReportExact` for all inputs).
- A websocket frame that takes the place of a cached body leaves that body's storage charged;
  `BodyContext.Serve` names this as the only way a released request leaves something in use.
- A cached field index is returned whatever storage is passed; it is the right one because every
  caller passes the current storage (`BodyContext.Proper`, `BodyContext.IndexIsFresh`).

## Model

| member | source | states |
|---|---|---|
| `JsonGrammar.DeepIsTwicePerLevel` | common/json_stream.go:244-371 | the scanner's depth counter lies between twice the nesting less one and twice the nesting |
| `JsonGrammar.Layout` | common/json_stream.go:244-371 | laying a tree out part by part at an offset is the same as finding its printed text there |
| `JsonSound.ValueSound` | common/json_stream.go:244-274 | whatever the parser accepts is the text of a well-formed tree no deeper than the room left, and its span is exactly that text |
| `JsonSound.CollSound` | common/json_stream.go:276-371 | the same for an object or array, with the list of direct key and value spans being the tree's |
| `JsonSound.ItemsSound` | common/json_stream.go:276-371 | the same for a run of members up to the closing bracket |
| `JsonComplete.ValueComplete` | common/json_stream.go:244-274 | the text of every well-formed tree is accepted with exactly its span if its depth fits, and refused otherwise |
| `JsonComplete.CollComplete` | common/json_stream.go:276-371 | the same for an object or array and its direct spans |
| `JsonComplete.ItemsComplete` | common/json_stream.go:276-371 | the same for a run of members |
| `JsonIndex.IndexSound` | common/json_stream.go:387-420 | an indexed range holds one object (array) with white space around it, within depth and key limits, and the spans returned are those of its tree |
| `JsonIndex.IndexComplete` | common/json_stream.go:387-420 | every such document is indexed with its tree's spans exactly when it is within the limits |
| `JsonIndex.IndexExact` | common/json_stream.go:387-420 | indexing succeeds if and only if the range is such a document |
| `JsonRoundTrip.ObjectLimits` | common/json_stream.go:276-317 | an object is indexed if and only if the counter stays within 1000 and no direct key takes more than 1048576 bytes with its quotation marks |
| `JsonRoundTrip.NestedLimits` | common/json_stream.go:244-281 | nested arrays can be indexed up to 501 of them, and are valid up to 10000 |
| `JsonScanner.Source.ReadAt` | common/json_stream.go:57-76 | what is relied on of a reader: some positive count of the right bytes, nothing only at the end |
| `JsonScanner.Scanner.Load` | common/json_stream.go:57-76 | refilling the window at the cursor succeeds exactly inside the range and keeps the window equal to the source |
| `JsonScanner.Scanner.PeekByte` | common/json_stream.go:78-85 | the source byte at the cursor inside the range, none at its end, for every window size and every short read |
| `JsonScanner.Scanner.ReadByte` | common/json_stream.go:87-94 | the same, and the cursor moves by one exactly when there was a byte |
| `JsonScanner.Scanner.SkipWhitespace` | common/json_stream.go:96-109 | the cursor ends where the unbuffered skip ends |
| `JsonScanner.Scanner.ExpectByte` | common/json_stream.go:111-120 | succeeds exactly on that byte and then stands behind it |
| `JsonScanner.Scanner.ParseString` | common/json_stream.go:122-160 | verdict and end position of the unbuffered string scan |
| `JsonScanner.Scanner.ParseLiteral` | common/json_stream.go:166-177 | verdict and end position of the unbuffered literal scan |
| `JsonScanner.Scanner.ParseNumber` | common/json_stream.go:179-242 | verdict and end position of the unbuffered number scan |
| `JsonScanner.Scanner.ParseValue` | common/json_stream.go:244-274 | span and end position of the unbuffered parser with the room the depth leaves; the mutual recursion terminates |
| `JsonScanner.Scanner.ParseObject` | common/json_stream.go:276-334 | fields (names decoded, keys within 1 MiB when collected) and end position of the unbuffered parser |
| `JsonScanner.Scanner.ParseArray` | common/json_stream.go:336-371 | element spans and end position of the unbuffered parser |
| `JsonScanner.Scanner.FinishRange` | common/json_stream.go:373-379 | succeeds exactly when only white space is left up to the end of the range |
| `JsonScanner.IndexJSONObject` | common/json_stream.go:387-402 | equals the unbuffered index for every window size and every pattern of short reads |
| `JsonScanner.IndexJSONArray` | common/json_stream.go:404-420 | the same for arrays |
| `JsonScanner.ReadJSONSpan` | common/json_stream.go:422-441 | the exact bytes of the span, or an error exactly when the span is turned around, over the limit or outside the source |
| `JsonSpans.SpanStructure` | common/json_stream.go:276-420 | spans lie in the range, separated by white space and one colon or comma only, and each value span is exactly one value |
| `JsonSpans.SpansOrdered` | common/json_stream.go:276-371 | any two entries are strictly ordered and disjoint, key before value before next key |
| `JsonSpans.SpansInside` | common/json_stream.go:276-371 | every span lies between the brackets |
| `JsonSpans.Reindex` | common/json_stream.go:276-420 | an object or array value span indexes on its own, with the spans of the same tree, unless a nested key is over the limit |
| `KeyNames.RuneRoundTrip` | common/json_stream.go:304-317 | decoding and encoding one well-formed UTF-8 sequence gives its bytes back |
| `KeyNames.NameRoundTrip` | common/json_stream.go:514-529 | decoding an encoded name repairs it, and gives it back if and only if it is well-formed UTF-8 |
| `KeyNames.EncodedIsBody` | common/json_stream.go:514-529 | an encoded name is always a valid JSON string |
| `KeyNames.PlainKey` | common/json.go:93-98 | an escape-free key decodes to itself if and only if it is well-formed UTF-8 |
| `KeyEscapes.EncodesUtf8` | common/json_stream.go:304-317 | encoding a code point gives its UTF-8 bytes, given by their value and not by division |
| `KeyEscapes.BrokenExact` | common/json_stream.go:304-317 | a byte is read as broken if and only if no UTF-8 sequence starts there, and otherwise the sequence read is that of the code point |
| `KeyEscapes.CharDecodes` | common/json_stream.go:304-317 | every character a string can hold decodes to what it says: its own bytes, the eight short escapes, numeric escapes in either case, surrogate pairs, U+FFFD for half a pair or a stray byte, whatever follows |
| `KeyEscapes.KeyMeaning` | common/json_stream.go:304-317 | every key splits into such characters and decodes to their meanings one after the other |
| `KeyEscapes.CharWritten` | common/json_stream.go:518-529 | each character of an added name is written by its escape, by its number (control, HTML and separator characters, in small letters) or as it is |
| `KeyEscapes.StrayWritten` | common/json_stream.go:518-529 | a byte of no sequence is written as U+FFFD by its number |
| `JsonAlphabet.IndexedName` | common/json_stream.go:293-317 | the name of every indexed field is what the characters of its key say |
| `JsonAlphabet.Classes` | common/json_stream.go:96-242 | white space, digits, hexadecimal digits, short escapes and delimiters as the characters they are |
| `JsonAlphabet.Words` | common/json_stream.go:244-274 | the three literals and the structural bytes as the characters they are |
| `StdJson.JsonValidExact` | common/json_stream.go:502-517 | the library's validity check holds exactly of a JSON text with at most 10000 open containers |
| `JsonRewrite.WriteFields` | common/json_stream.go:478-512 | the kept members, copied or replaced, comma-joined, with their exact size; fails exactly on a replacement that is used and not JSON, or a copied span that is turned around |
| `JsonRewrite.WriteAdditions` | common/json_stream.go:514-529 | appends the additions in order; fails exactly on one that is not JSON |
| `JsonRewrite.NewTopLevelJSONObjectReader` | common/json_stream.go:469-534 | the parts spell the rewritten object, the size returned is exactly its length, and it fails exactly on invalid edits, or a copied span that is turned around |
| `JsonRoundTrip.EditsAccepted` | common/json_stream.go:487-517 | a set of edits is accepted if and only if every replacement it uses, and every addition, is valid JSON |
| `JsonRoundTrip.IndexedInSource` | common/json_stream.go:469-534 | the fields of an index satisfy what the rewriter asks of its fields |
| `JsonRoundTrip.RewriteRoundTrip` | common/json_stream.go:469-534 | the result re-indexes if and only if new values and names fit the limits, and then to the old list with deletions dropped, replacements at every field of the name and additions at the end, all else byte for byte |
| `JsonRoundTrip.DeepReplacement` | common/json_stream.go:502-512 | arrays nested up to ten thousand deep are a valid replacement for any value of any indexed object, and the result re-indexes if and only if there are at most 500 of them |
| `JsonRoundTrip.PlainRewrite` | common/json_stream.go:469-534 | without edits every raw key and value is kept, the result always re-indexes, and rewriting again changes no byte |
| `DelimiterScan.SkipJSONWhitespace` | common/json.go:161-171 | ends where the recursive parser's skip ends |
| `DelimiterScan.ScanJSONStringEnd` | common/json.go:173-189 | the end found by the escape-aware scan of the specification; no index out of range |
| `DelimiterScan.ScanJSONValueEnd` | common/json.go:191-233 | the end found by the specification, scalars and containers; no index or pop out of range |
| `DelimiterScan.ScanContainerEnd` | common/json.go:198-221 | the in-place delimiter stack computes the recursive stack scan |
| `DelimiterScan.ValueNeutral` | common/json.go:198-221 | the text of any value, at any depth, leaves the delimiter stack as it was |
| `DelimiterScan.ValueEndAgrees` | common/json.go:191-233 | the delimiter-stack scan ends every value where the grammar, hence the recursive parser, does |
| `DelimiterScan.ValueEndMeaning` | common/json.go:191-233 | on any input a value found ends with the bracket of its kind, with a quotation mark, or before a delimiter with none inside |
| `JsonExtract.ExtractTopLevelJSONFields` | common/json.go:68-124 | for every input: an error exactly when it is no valid object, else the last value of every wanted name |
| `JsonExtract.ForEachJSONArrayValue` | common/json.go:128-159 | for every input: an error exactly when it is no valid array, else the values up to where the visitor stops |
| `JsonExtract.WalkersSeeIndex` | common/json.go:68-159 | on whatever the indexer accepts, both walkers go over the index's own entries |
| `JsonExtract.KeyNamesAgree` | common/json.go:93-98 | the two files read a key alike if and only if it has an escape or is well-formed UTF-8 |
| `JsonExtract.BrokenKeyReadsApart` | common/json.go:93-98 | the key of the single byte 0xFF is kept by the extractor and repaired by the decoder |
| `JsonExtract.LastValueMeaning` | common/json.go:110-112 | a wanted name is in the result if and only if it occurs, with the bytes of its last occurrence |
| `JsonExtract.ExtractAgrees` | common/json.go:68-124 | what is extracted from an indexable body is, per wanted name, the raw bytes of the index's last field of that name |
| `JsonExtract.VisitedAll` | common/json.go:128-159 | a visitor that never stops sees exactly the index's elements in order |
| `JsonExtract.TrimMeaning` | common/json.go:111 | trimming takes the six ASCII space bytes from both ends of a value and nothing else |
| `JsonExtract.VisitedMeaning` | common/json.go:144-157 | any visitor sees the values in order, up to and including the first that stops it |
| `JsonExtract.TopExact` | common/json.go:68-144 | both walkers go over the tree's own entries if the text is a container of the kind with at most 10000 levels, and over nothing otherwise |
| `JsonExtract.TopRefused` | common/json.go:69-71 | and over nothing where there is no JSON text |
| `BodyCapture.CopyLimited` | common/body_storage.go:224-227 | everything up to the limit, however the stream is chunked |
| `BodyCapture.CopyBodyWithLimit` | common/body_storage.go:219-245 | done means the whole stream and within the limit; too large means it was; no-progress only if the stream can give nothing a hundred times in a row at the probe |
| `BodyStorage.Reader.Read` | common/body_storage.go:46-60 | an independent cursor over the content |
| `BodyStorage.ReplayAll` | common/body_storage.go:123-130 | reading a new reader to its end replays the full content, however chunked |
| `BodyStorage.MemoryStorage.Read` | common/body_storage.go:72-79 | a read of the abstract machine |
| `BodyStorage.MemoryStorage.Seek` | common/body_storage.go:81-88 | a seek of the abstract machine |
| `BodyStorage.MemoryStorage.ReadAt` | common/body_storage.go:90-97 | a positioned read of the abstract machine; the cursor stays |
| `BodyStorage.MemoryStorage.Bytes` | common/body_storage.go:114-121 | the content, or closed; the cursor stays |
| `BodyStorage.MemoryStorage.NewReader` | common/body_storage.go:123-130 | an independent reader of the whole content from the start, or closed |
| `BodyStorage.MemoryStorage.Close` | common/body_storage.go:99-112 | closed, once; the first close is told apart |
| `BodyStorage.DiskStorage.Read` | common/body_storage.go:247-254 | a read of the same machine over a file with short reads |
| `BodyStorage.DiskStorage.Seek` | common/body_storage.go:256-263 | a seek of the same machine |
| `BodyStorage.DiskStorage.ReadAt` | common/body_storage.go:265-272 | a positioned read of the same machine |
| `BodyStorage.DiskStorage.Bytes` | common/body_storage.go:285-317 | the whole content through short reads, with the file offset put back |
| `BodyStorage.DiskStorage.NewReader` | common/body_storage.go:319-330 | an independent reader of the whole content from the start, or closed |
| `BodyStorage.DiskStorage.Close` | common/body_storage.go:274-283 | closed and removed, once |
| `BodyStorage.ContentFixed` | common/body_storage.go:46-338 | over any history the content never changes and closed stays closed |
| `BodyStorage.AfterClose` | common/body_storage.go:99-130 | after a close every later operation reports closed and changes nothing |
| `BodyStorage.ReplayFromStart` | common/body_storage.go:72-130 | reads from the start spell a prefix of the content, whatever other readers, Bytes and ReadAt come between |
| `BodyStorage.SeekMeaning` | common/body_storage.go:81-88 | a position is reached alike from the start, from the cursor and from the end |
| `BodyStorage.SeekRefused` | common/body_storage.go:81-88 | no position before the start is reached, and trying moves nothing |
| `BodyStorage.ReadAtMeaning` | common/body_storage.go:90-97 | a positioned read gives the bytes from there, as many as asked for or there are, and says end of file exactly when there are fewer |
| `BodyCache.Perform` | common/body_storage.go:46-338 | every operation of either storage is one the abstract machine allows |
| `BodyCache.Drive` | common/body_storage.go:46-338 | every sequence of operations on either storage is a history of the abstract machine |
| `BodyCache.Cache.NewMemoryStorage` | common/body_storage.go:62-70 | holds exactly the data and charges the memory counters |
| `BodyCache.Cache.NewDiskStorage` | common/body_storage.go:149-179 | holds exactly the data and charges the disk counters; a failure charges nothing |
| `BodyCache.Cache.NewDiskStorageFromReader` | common/body_storage.go:181-217 | the whole stream within the limit, or a failure that charges nothing |
| `BodyCache.Cache.CreateBodyStorage` | common/body_storage.go:341-360 | always a storage of the data; on disk if and only if it has thresholdMB times 1048576 bytes, there is room up to maxSizeMB, the cache is enabled and the disk works |
| `BodyCache.Cache.CaptureChunked` | common/body_storage.go:388-439 | the path of unknown length: prefix up to the threshold, then memory or disk, still the whole stream exactly |
| `BodyCache.Cache.Capture` | common/body_storage.go:362-459 | on every path: the whole stream if and only if it is within the limit, too large otherwise, however chunked; on disk or in memory exactly by length, threshold and room in bytes; a failing disk fails the streamed bodies and no other; counters charged exactly for what was made |
| `BodyCache.Cache.CloseStorage` | common/body_storage.go:99-112 | the first close gives back exactly what was charged, later ones nothing |
| `BodyLedger.OpenClose` | common/disk_cache_config.go:109-134 | closing one storage takes exactly it out of the sums |
| `BodyLedger.PostKeeps` | common/disk_cache_config.go:109-134 | every event keeps counters equal to open storages and sizes, and the clamp at zero never fires |
| `BodyLedger.LedgerConserved` | common/disk_cache_config.go:109-145 | so they are equal over every run |
| `BodyLedger.HitsCounted` | common/disk_cache_config.go:137-145 | the hit counters count exactly the bodies taken from a stream into each kind of storage |
| `BodyLedger.DiskUnderCeiling` | common/disk_cache_config.go:170-177 | if every disk storage was made right after a room check for no less than it takes, disk usage never exceeds the maximum |
| `BodyLedger.Ledger.Capture` | common/body_storage.go:362-459 | the code's own capture extends the run by its event, with the size really checked for room |
| `BodyLedger.Ledger.Create` | common/body_storage.go:341-360 | the code's own creation from bytes, which counts no hit, extends the run by its event |
| `BodyLedger.Ledger.Close` | common/body_storage.go:274-283 | the code's own close, first or repeated, extends the run by its event |
| `BodyLedger.Ledger.InBalance` | common/disk_cache_config.go:109-177 | after any calls of capture, create and close the counters are what is open, and if no declared length was too small the disk is within its ceiling |
| `BodyContext.Context.GetRequestBody` | common/gin.go:37-87 | the cached storage at offset 0, closed after release, the legacy bytes, or the network body within the limit; with the state that results; the first fetch charges the counters for the storage its size asks for, any other nothing |
| `BodyContext.Context.FetchWire` | common/gin.go:64-86 | the first fetch caches the whole network body or reports too large exactly when it is |
| `BodyContext.Context.GetOrIndexJSONBodyFields` | common/gin.go:105-118 | the cached index, else a fresh one, which is then cached |
| `BodyContext.Context.ReleaseBodyStorage` | common/gin.go:122-140 | storage closed, its counters given back, every reference dropped |
| `BodyContext.Context.InstallFrame` | controller/relay_responses_websocket.go:68-73 | the frame takes the body's place, with no index and not released |
| `BodyContext.Context.ReceiveFrame` | controller/relay_responses_websocket.go:68-73 | a frame in memory or on disk, as its size asks, is charged and takes the body's place as one step of a run |
| `BodyContext.Context.UnmarshalBodyReusable` | common/gin.go:147-194 | after a successful decode the request body replays the same storage from offset 0 |
| `BodyContext.IndexTopLevelJSONObject` | common/json_stream.go:381-385 | the index of the whole content of either kind of storage, an error when closed |
| `BodyContext.StepKeeps` | common/gin.go:37-194 | what every step keeps: open while cached, cached index fresh, body source consistent |
| `BodyContext.BodyStays` | common/gin.go:37-194 | between releases and installs the storage and its content stay, and only a decode or a conversion redirects the request body |
| `BodyContext.FetchReplays` | common/gin.go:37-47 | once cached, every later fetch returns the same storage and content at offset 0 and leaves the network body alone |
| `BodyContext.ClosedUntilInstalled` | common/gin.go:48-50 | after a release every fetch reports closed and every index fails until a frame is installed |
| `BodyContext.IndexIsFresh` | common/gin.go:102-118 | every index answer, cached or not, is a fresh index of the current storage |
| `BodyContext.FetchedIsSent` | common/gin.go:37-87 | in every run without a frame, whatever is fetched at any time is the body as sent, also after a conversion |
| `BodyContext.ConversionSeen` | middleware/kling_adapter.go:41-48 | the next fetch sees a converted body if and only if none was cached or released, or it is the same |
| `BodyContext.ConversionLost` | middleware/kling_adapter.go:17-48 | an adaptor that decodes the body and then sets its own has every later fetch return the body it decoded |
| `BodyContext.Context.ConvertBody` | middleware/jimeng_adapter.go:44-46 | the converted body is set beside the cached storage, which stays |
| `BodyContext.Context.Call` | common/gin.go:37-194 | every call on a request is one step of a run |
| `BodyContext.Drive` | common/gin.go:37-194 | any sequence of calls on a request is a run, so all of the above holds of it; in use is what was before and the cached body, unless a frame was put over one |
| `BodyContext.Serve` | middleware/body_cleanup.go:11-18 | whatever calls a request makes, after the clean-up as much storage is in use as before it came, unless a frame was put over a cached body |
| `OrderLocks.UnlockFindsOwn` | controller/topup.go:294-300 | a holder's unlock, which looks up outside the create lock, finds the mutex it locked |
| `OrderLocks.StepKeepsLocks` | controller/topup.go:269-308 | every atomic step of every thread keeps the lock invariant, including that each count is the number of threads between registration and decrement |
| `OrderLocks.MutualExclusion` | controller/topup.go:279-308 | at most one thread holds an order |
| `OrderLocks.EntriesExact` | controller/topup.go:279-308 | outside the create lock an entry is in the map exactly while its count is positive |
| `OrderLocks.QuiescentEmpty` | controller/topup.go:294-308 | when all threads are done the map is empty and no mutex is locked |
| `OrderLocks.NoDeadlock` | controller/topup.go:279-308 | while a thread is at work, some thread at work can step |
| `OrderProgress.WorkFalls` | controller/topup.go:279-308 | every step of a thread at work takes away from the work left to all |
| `OrderProgress.DrainBounded` | controller/topup.go:279-408 | a run in which no idle thread takes up new work has no more steps than there was work |
| `OrderProgress.DrainedEmpty` | controller/topup.go:279-408 | when no thread at work can step any more, after at most fourteen steps a thread, all are done and the map is empty |
| `OrderCredit.StepKeepsDb` | controller/topup.go:373-408 | every step keeps what was read fresh under the lock, and every order's history |
| `OrderCredit.RunKeeps` | controller/topup.go:269-408 | both invariants hold in every state of every run |
| `OrderCredit.LockSafety` | controller/topup.go:279-308 | in every run: one holder per order, and each unlock finds its own mutex |
| `OrderCredit.AtMostOnceCredit` | controller/topup_stripe.go:231-255 | in every run of both handlers: an order leaves pending at most once, is credited at most once, and only as an Epay order moved to success, to its own user |
| `OrderCredit.CreditedExactly` | controller/topup.go:398-401 | every credit is Amount times QuotaPerUnit of the order, truncated |
| `OrderCredit.CreditTruncates` | controller/topup.go:398-400 | truncation is toward zero |
| `OrderOutcome.StepRows` | controller/topup.go:379-392 | only a thread in its handler, with a job for the order's own provider, changes a row: pending to success with the payment method notified, or pending to failed |
| `OrderOutcome.RunRows` | controller/topup_stripe.go:231-255 | over any run a row moves at most once, and that of another provider never |
| `OrderOutcome.CreditPaid` | controller/topup.go:387-401 | in every run whose writes are accepted an Epay order that became paid has been credited exactly once, its worth to its own user, unless a thread is just about to; when all threads are done it has been |
| `OrderOutcome.JobDone` | controller/topup.go:373-408 | a job taken up for a pending order of its provider and done leaves it a success (EpayNotify) or a failure (Stripe), whatever other threads did |
| `RateLimiter.InMemoryRateLimiter.Request` | common/rate-limit.go:45-70 | the decision and the new queue |
| `RateLimiter.InMemoryRateLimiter.ClearExpiredItems` | common/rate-limit.go:28-42 | exactly the keys whose newest entry has expired are deleted |
| `RateLimiter.DecisionExact` | common/rate-limit.go:45-70 | on a queue that remembers the log, the queue's decision is the full log's |
| `RateLimiter.RunRemembers` | common/rate-limit.go:28-70 | whatever other keys ask and whenever the sweeper runs, a key whose duration is at most a second above the expiration has a queue that remembers all of its log that counts |
| `RateLimiter.WindowExact` | common/rate-limit.go:28-70 | for such a key a request is admitted if and only if fewer than its limit were admitted in its last duration seconds of the full history |
| `RateLimiter.InMemoryRateLimiter.Init` | common/rate-limit.go:14-26 | the first expiration counts, later ones are ignored |
| `RateLimiter.ForgottenTooSoon` | middleware/model-rate-limit.go:222-241 | a key with a longer duration, used up, swept and asked for again, is admitted though its limit is used up |
| `RateLimiter.ExactIff` | common/rate-limit.go:28-70 | the window is exact in every run if and only if the duration is at most one second above the expiration |
| `RateLimiter.NeverTooStrict` | common/rate-limit.go:45-70 | whatever the durations, no request is turned away that the full history would admit |
| `RateLimiter.FirstAdmitted` | common/rate-limit.go:64-69 | a key never asked for is admitted, whatever its limit |
| `RelayRetry.Relay` | controller/relay.go:141-221 | terminates; the used-channel trace is one block per channel, each channel the selection's choice with all given up before it excluded; another attempt only after an uncommitted, retryable failure, and the loop ends only on a body that cannot be fetched, a success, an error not to be retried, or, after whole blocks, when selection has nothing left |
| `RelayRetry.NoRevisit` | controller/relay.go:153-221 | a trace of such blocks never comes back to a channel |
| `RelayRetry.TraceNoRevisit` | controller/relay.go:153-221 | the same for a trace that ends inside a block |
| `RelayRetry.Select` | controller/relay.go:264-294 | the distributor's choice before the first attempt, afterwards exactly what selection returns |
| `RelayRetry.AttemptsConfigured` | controller/relay.go:257-262 | at least one attempt a channel, and as many as configured |
| `RelayRetry.RetryExactly` | controller/relay.go:296-329 | exactly which errors are retried, by commitment, affinity, channel errors, skip marks, a bound channel and status ranges |
| `UpstreamModels.NormalizeModelNames` | controller/channel_upstream_update.go:93-98 | no repetitions, and exactly the trimmed non-empty names |
| `ModelNames.TrimTakesSpace` | controller/channel_upstream_update.go:95 | trimming takes white space from the ends and nothing else |
| `ModelNames.TidiedExactly` | controller/channel_upstream_update.go:93-98 | the tidied list holds exactly the names that some entry spells with any white space around it |
| `ModelNames.TidiedInOrder` | controller/channel_upstream_update.go:93-98 | names stand in the order in which they were first spelled |
| `ModelNames.MergeInOrder` | controller/channel_upstream_update.go:100-114 | a merged list is the base and then what is new, each in its own order |
| `ModelNames.RestInOrder` | controller/channel_upstream_update.go:116-136 | what is subtracted from or intersected keeps its order |
| `ModelNames.EntryCovers` | controller/channel_upstream_update.go:205-212 | an ignored entry after `regex:` is matched as the pattern without white space around it |
| `ModelNames.NameCovers` | controller/channel_upstream_update.go:205-212 | any other entry covers only its own name |
| `UpstreamModels.MergeMeaning` | controller/channel_upstream_update.go:100-114 | the union, clean |
| `UpstreamModels.MergeLoop` | controller/channel_upstream_update.go:100-114 | the loop with its seen-set computes the merge |
| `UpstreamModels.SubtractMeaning` | controller/channel_upstream_update.go:116-125 | the difference, clean |
| `UpstreamModels.IntersectMeaning` | controller/channel_upstream_update.go:127-136 | the intersection, clean |
| `UpstreamModels.ApplyMeaning` | controller/channel_upstream_update.go:138-143 | for any selection: no repetitions, and exactly origin plus added, less what is removed and not added |
| `UpstreamModels.CollectLoop` | controller/channel_upstream_update.go:172-231 | the set-building loops compute the pending changes |
| `UpstreamModels.CollectMeaning` | controller/channel_upstream_update.go:172-231 | exactly which names are pending to add and to remove |
| `UpstreamModels.Channel.Detect` | controller/channel_upstream_update.go:371-391 | records exactly the pending changes; with automatic synchronisation the additions are merged into the models text at once |
| `UpstreamModels.Channel.Apply` | controller/channel_upstream_update.go:802-850 | the new models text, ignored list and remaining pending lists |
| `UpstreamModels.AppliedReads` | controller/channel_upstream_update.go:819-824 | the list as the next check reads it back from the text |
| `UpstreamModels.AddedNotIgnored` | controller/channel_upstream_update.go:826-829 | no added model remains ignored by name |
| `UpstreamModels.DetectApplyFixpoint` | controller/channel_upstream_update.go:172-231 | for all names: detect, apply all, detect again leaves nothing pending if and only if no added name holds a comma and no new model is ignored only by patterns that are themselves being added |
| `UpstreamModels.PlainNamesSettle` | controller/channel_upstream_update.go:172-231 | if no upstream name looks like a pattern, that is: no added name holds a comma |
| `UpstreamModels.DetectApplyDetect` | controller/channel_upstream_update.go:802-850 | the three calls on a channel leave nothing pending if and only if that condition holds |
| `UpstreamSelection.SelectionSettles` | controller/channel_upstream_update.go:815-838 | for any selection of what is pending: the next check finds exactly what was left, in order, and nothing added is ignored, if and only if no added name holds a comma and no pattern is forgotten or newly ignored by its name |
| `UpstreamSelection.PlainSelection` | controller/channel_upstream_update.go:815-838 | if no upstream name looks like a pattern, none is forgotten or newly ignored |
| `UpstreamSelection.DetectSelectDetect` | controller/channel_upstream_update.go:802-850 | the three calls on a channel, with any input, under the same exact condition |
| `UpstreamModels.CommaNeverSettles` | controller/channel_upstream_update.go:819-824 | an upstream name with a comma is pending again |
| `UpstreamModels.PatternForgotten` | controller/channel_upstream_update.go:826-829 | adding a model whose name is an ignored pattern makes what the pattern covered pending |
| `UpstreamModels.AnchoredPatternForgotten` | controller/channel_upstream_update.go:205-219 | so with the pattern `regex:^b` and the models `regex:^b` and `b` |
| `UpstreamModels.AutoSyncSettles` | controller/channel_upstream_update.go:380-391 | after automatic additions nothing more is to be added if and only if no added name holds a comma, and then what is to be removed is unchanged |
| `DelimitedText.ListRoundTrip` | model/channel.go:194-196 | a list joined into text and split again is the list if and only if no part holds the separator and neither end is empty |
| `DelimitedText.SplitInverse` | model/channel.go:194-196 | splitting and joining again gives any text back |
| `DelimitedText.TrimTakesOnly` | model/channel.go:194-196 | trimming takes separators from the ends and nothing else |
| `DelimitedText.SpacesExactly` | model/channel.go:182 | which code points count as white space |
| `MultiKey.ChannelKeys.DisableKey` | controller/channel.go:1595-1636 | exactly that key is disabled, in range only |
| `MultiKey.ChannelKeys.EnableKey` | controller/channel.go:1638-1678 | exactly that key is enabled and its time and reason forgotten |
| `MultiKey.ChannelKeys.EnableAllKeys` | controller/channel.go:1680-1702 | all keys enabled, nothing recorded |
| `MultiKey.ChannelKeys.DisableAllKeys` | controller/channel.go:1704-1749 | every enabled key is disabled, the others stay as they were |
| `MultiKey.ChannelKeys.DeleteKey` | controller/channel.go:1751-1829 | the other keys keep order, status, time and reason under their new indices; the last key is not deleted |
| `MultiKey.ChannelKeys.DeleteDisabledKeys` | controller/channel.go:1831-1898 | the survivors keep order and status, the disabled ones time and reason, under their new indices |
| `MultiKey.SurvivorsKept` | controller/channel.go:1831-1898 | the survivors are exactly the keys not automatically disabled, in order, with their status |
| `MultiKey.SurvivorPositions` | controller/channel.go:1831-1898 | exactly the keys whose status is not 3 survive, in order, a disabled one with its time and reason |
| `MultiKey.RecordMeaning` | controller/channel.go:1497-1529 | a key without a status is enabled; 1, 2 and 3 mean enabled, disabled by hand and automatically |
| `MultiKey.WithoutMeaning` | controller/channel.go:1770-1800 | deleting one key moves the later ones up by one and no other |
| `MultiKey.ChannelKeys.ListKeys` | controller/channel.go:1497-1542 | the status list over all keys, and how many have each status |
| `MultiKey.StatusListed` | controller/channel.go:1497-1542 | entry i of the list is key i with its effective status, and time and reason only if disabled |
| `MultiKey.PreviewMeaning` | controller/channel.go:1529-1533 | a preview is the key, or its first ten characters and three dots |
| `MultiKey.FilterList` | controller/channel.go:1544-1554 | exactly the entries of the wanted status, or all |
| `MultiKey.FilteredPositions` | controller/channel.go:1544-1554 | the filtered list is exactly the entries of the wanted status, in order |
| `MultiKey.PickPage` | controller/channel.go:1556-1577 | the page asked for, clamped to the last |
| `MultiKey.ChannelKeys.GetKeyStatus` | controller/channel.go:1481-1593 | the page of the filtered status list, its total and its page count, and the counts per status whatever the filter |
| `MultiKey.PagesComplete` | controller/channel.go:1556-1577 | the pages one after the other are the filtered list |
| `MultiKey.PagesNeeded` | controller/channel.go:1556-1577 | there are no more pages than needed, and one at least; all but the last are full |
| `KeyStore.KeysRoundTrip` | model/channel.go:175-197 | keys written back read as they were if and only if their text decodes as an array of just these, or is no array and they are well separated |
| `KeyStore.RereadsExact` | model/channel.go:175-197 | no text that decodes as an array has the joined keys themselves for elements, so it is: well separated and no array |
| `KeyStore.BracketedExactly` | model/channel.go:182-184 | a text looks like an array exactly if a square bracket is the first thing in it but white space |
| `KeyStore.SaveCounts` | model/channel.go:533-571 | saving makes the size the number of keys if and only if the stored text is not an empty array |
| `KeyStore.EmptyArrayCounted` | model/channel.go:545-562 | the text `[]` has no keys and is counted as one |
| `KeyStore.BlankLineLost` | controller/channel.go:1811-1818 | deleting the last of three keys whose second is blank leaves one key, size one, and a recorded time out of range |
| `KeyStore.BrokenKey` | controller/channel.go:1879-1881 | a key with a line break does not read back |
| `KeyStore.Mark` | controller/channel.go:1595-1749 | for every row with right size and indices: the lists are as the action says, and size and indices stay right unless all keys of an empty array are enabled |
| `KeyStore.Shrink` | controller/channel.go:1751-1898 | for every such row: nothing changes or the survivors are written back, and the row is as it should be if and only if there are none or they read back |
| `KeyStore.Manage` | model/channel.go:533-571 | for every such row and action: size, indices and lists are as they should be if and only if the survivors of a deletion read back and it is not an empty array being saved; what is written in the other cases is given too |
| `KeyStore.ManageAll` | controller/channel.go:1480-1898 | the same over any run of actions whose deletions leave keys that read back |
| `KeyStore.DeleteDisabledExact` | controller/channel.go:1831-1898 | exactly the keys not automatically disabled remain, with their status, if and only if there are any (or no keys at all) |
| `KeyStore.AllComeBack` | controller/channel.go:1831-1898 | a row whose one key is automatically disabled comes back with it enabled |
| `RatioSync.NearlyEqual` | controller/ratio_sync.go:48-53 | closer than 1e-9 |
| `RatioSync.CollectModels` | controller/ratio_sync.go:542-556 | exactly the models some price is known of |
| `RatioSync.CheckTrust` | controller/ratio_sync.go:558-591 | per channel name, whether its prices are other than the placeholder pair |
| `RatioSync.CompareOne` | controller/ratio_sync.go:605-629 | what is shown for one channel and whether it differs |
| `RatioSync.CompareField` | controller/ratio_sync.go:594-653 | one entry of the first pass and whether it belongs there |
| `RatioSync.Draft` | controller/ratio_sync.go:593-654 | the first-pass report has exactly the entries that belong there |
| `RatioSync.DiffChannels` | controller/ratio_sync.go:656-665 | exactly the channels with a real difference in some entry |
| `RatioSync.Prune` | controller/ratio_sync.go:667-693 | channels without a difference are dropped, then entries that show none, then empty rows |
| `RatioSync.BuildDifferences` | controller/ratio_sync.go:536-696 | the passes one after the other; no empty rows |
| `RatioSync.ReportExact` | controller/ratio_sync.go:536-696 | for all inputs: exactly which entries are reported, which channels they list and what they show |
| `RatioSync.PlainReport` | controller/ratio_sync.go:536-696 | without nulls or the text `same`: an entry is reported if and only if some channel differs there, and lists exactly the channels that differ somewhere |
| `RatioMeaning.NumbersAlike` | controller/ratio_sync.go:48-62 | the same number is alike in every form in which it is delivered; numbers 1e-9 apart or more are not |
| `RatioMeaning.TextsAlike` | controller/ratio_sync.go:55-62 | texts are alike if and only if they are equal |
| `RatioMeaning.DiffersExactly` | controller/ratio_sync.go:594-627 | a channel counts as differing if and only if the price it delivers is not alike the local one or there is no local one |
| `RatioMeaning.ReportMeaning` | controller/ratio_sync.go:536-696 | the report in terms of the prices delivered: which entries there are and which channels they list |
| `RatioMeaning.SameDataEmpty` | controller/ratio_sync.go:536-696 | channels that deliver the local prices give an empty report |
| `RatioMeaning.ShownMeans` | controller/ratio_sync.go:605-627 | what an entry shows for a channel: its price, the mark of sameness or nothing |
| `RatioMeaning.ListedAlike` | controller/ratio_sync.go:558-696 | an entry lists nothing but channels, and gives a confidence for exactly those it lists |
| `RatioMeaning.ConfidenceMeaning` | controller/ratio_sync.go:558-591 | the confidence given is false exactly for a model ratio of 37.5 with a completion ratio of 1 |
| `RatioSync.NullIsLost` | controller/ratio_sync.go:605-692 | a null that differs from the local price is not reported |

## Left out

- I/O failures of a random-access source other than end of data, nil readers and the texts of error messages: an error is one value, told apart only where a caller does.
- 64-bit widths: offsets, sizes and counters are unbounded; the sums involved stay far below 2^63.
- Go's library is modelled where the code leans on it: `json.Valid` as the same grammar with 10000 levels, key decoding and encoding written out in `KeyNames` (with the encoder's HTML escaping), `io.Copy`, `io.MultiReader` and files by what they deliver.
- BodyStorage.MemoryStorage.Read: reads into empty space, where Go's two readers answer differently at the end, are not modelled; both storages are compared on non-empty reads.
- BodyCache.Cache.Capture: the disk either works, cannot create a file or cannot write; a later read of a written file does not fail.
- Clean-up of old cache files, resets and re-synchronisation of the counters from the file system: outside the ledger.
- BodyContext.Context.GetRequestBody: a network body that was closed after a failed fetch is taken to refuse further reads, as the HTTP server's does.
- BodyContext.Context.UnmarshalBodyReusable: cursor and lifecycle only; what the decoders make of the bytes is a parameter, and form parsing is not part of the model.
- Other payment handlers (Stripe completion and expiry, manual completion, other gateways), signature checks and the database beyond atomic reads and writes of one row.
- RelayRetry.Relay: selection is any choice that honours the exclusions; billing, logging and automatic disabling around the loop are not modelled.
- RateLimiter.InMemoryRateLimiter.Request: a limit or duration that changes between requests of one key; the mutex makes each request one step.
- UpstreamModels.DetectApplyFixpoint: regular-expression matching is any predicate; fetching, scheduling and notification are not modelled.
- KeyStore.Manage: decoding an array of keys is any function (with its length law in `KeyStore.RereadsExact`); the database keeps a column whose new value is empty, as the ORM does for structs; editing the keys as text is not modelled.
- RatioSync.BuildDifferences: list- or object-valued prices (comparing two of them panics in Go) and the fetching and conversion of upstream prices; prices are reals.
- Everything else the gateway does (provider adaptors, billing, authentication, administration, the front end): outside this core.
