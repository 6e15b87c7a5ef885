# Post Analyzer: a verified model

This project models, in Dafny, the parts of the Post Analyzer services whose correctness is not
obvious from reading one function, and proves what they promise. One module per file; the modules
build on each other in this order.

| part | modules | what it models |
|---|---|---|
| wire format | `Options`, `Binary`, `Wire`, `Message`, `Writing`, `FastCodec`, `Truncation`, `Acceptance`, `Schemas` | the generated Thrift codec (`FastRead`, `FastWriteNocopy`, `BLength`), driven by schemas instead of repeated per struct |
| across the wire | `Transport`, `Arriving`, `Abac`, `ListOverWire`, `AnalysisOverWire` | errors, authorisation decisions, post lists and analyses as the bytes of requests and answers |
| text | `Utf8`, `Counting`, `CharCount`, `Tokenizer`, `CommandLine` | Go's UTF-8 decoding, the chunked character counter, the REPL tokenizer |
| lists | `Posts`, `Sorting`, `Listing`, `Analytics` | filter, in-place sort, paging, and the analytics over all posts |
| store and cache | `Store`, `Cache`, `Service`, `ServiceRuns`, `CacheRace`, `CacheAlone`, `CacheStale`, `LostUpdate` | `FileStorage`, `MemoryCache` and `PostService` as classes, whole sequential runs, and all interleavings |
| protocols | `Kafka`, `Rabbit`, `Migrator`, `Limiter` | consumer loops, migrations and the rate limiter over unbounded runs with failures |

Code that changes state in place is a class or a method with loops, proved against a function of the
old state; the laws are lemmas about those functions, or about runs of a state machine. The clock,
the disk, failures, `strings.ToLower`, `strings.TrimSpace` and the RFC 3339 layout are parameters.

The wire format follows "Thrift Binary protocol encoding" of the Apache Thrift specification, text
decoding follows sections 3 and 4 of RFC 3629, and acknowledgements section 3.1.8 of the AMQP 0-9-1
specification.

## What the proofs found

The model follows the code where a comment or an expectation says more.

- `internal/service/post_service.go:44-45` says readers never see stale data past a write. A fill that
  comes after the invalidation puts the old post back (`CacheStale.LateFillServesOldPost`). No read begun
  after an invalidation can be answered from an older version exactly when every fill is in time, that
  is, when its key was not invalidated for a newer version than the one it read
  (`CacheStale.FreshIffFillsInTime`).
- `Create` invalidates only the list. While a delete of the highest id has not invalidated yet, a create
  reuses that id, and a read begun after the create returns the deleted post
  (`CacheStale.CreateServesDeletedPost`). With clean fills this can happen exactly when an unexpired entry
  for the new id is in the cache at the write (`CacheStale.CreateMissedIff`), only a pending delete leaves
  one, and dropping the post's key in `Create` too would rule it out (`CacheStale.DroppingSuffices`).
  Sequential runs are not affected.
- `Update` reads the post and writes it back in two accesses. It stores what a single step would have
  stored exactly when nothing the request leaves alone has changed in between
  (`LostUpdate.UpdateAtomicIff`); otherwise it takes back another update (`LostUpdate.UpdateIsLost`).
- The tokenizer decodes the line into runes, so a byte that is not UTF-8 comes back as U+FFFD: a list of
  strings is the tokens of some line exactly when all of them are valid UTF-8
  (`CommandLine.TokensOfSomeLineIff`), and no line gives the string of the one byte 0xFF
  (`CommandLine.NoLineGivesAStrayByte`).
- A failed write leaves the file alone but not the caller's posts: they keep the ids and times already set
  (`Store.FileStorage.Create`, `Update`, `BatchCreate`).
- A title or body of blanks passes `validateCreateRequest`, is trimmed to nothing, refused by the store
  and reported as a 500 instead of a 422 (`ServiceRuns.BlankDraftRefused`).
- `countCharacters` on more than 1000 bytes agrees with a plain count exactly when no cut splits a
  character (`CharCount.ChunkedAgainstSimple`, with a text on which they differ).
- `Up` runs outside the migration's transaction, so after a failure it may have taken effect without
  being recorded (`Migrator.UpOutlivesRollback`). One `Migrate` leaves such an Up exactly when the first
  migration that meets a failure fails at the insert or the commit (`Migrator.Database.Migrate`). In every
  run it can only be the Up of the version after the last recorded one (`Migrator.UnrecordedUp`), and that
  version is recorded only after its Up has run again (`Migrator.UpRunsAgain`).
- An `AppError` whose status is a multiple of 2^32 would arrive as success; the service never makes one
  (`Transport.ErrorLostIff`, `ServiceRuns.ServiceErrorsArrive`).
- The rate limiter lets at most 2 * limit - 1 requests of a client through in any closed interval as long
  as its window, one less than two full windows, and that bound is reached (`Limiter.BoundReached`). A
  window of 0 lets limit requests through at one instant, and a limit below 1 still lets one request per
  window through.
- The gateway gets the analysis unchanged, but for the full character counts the message has no field for,
  exactly when the number of posts and the median length are below 2^31
  (`AnalysisOverWire.AnalysisUnchangedIff`).
- A page number of 2^31 or more wraps around in the gateway's 32-bit cast, so page 2^32 + 1 shows page 1
  (`Listing.ApiPageServed`).

## Model

| member | source | states |
|---|---|---|
| Binary.GetPutInt | kitex_gen/post/k-post.go:264-269 | a two's complement integer written in w bytes reads back for every value that fits |
| Binary.BigEndFirst | kitex_gen/post/k-post.go:264-269 | big end first: of two byte sequences of one length the lexicographically smaller is read as the smaller number, and conversely |
| Binary.PutIntAt | kitex_gen/post/k-post.go:264-269 | byte i of w is the digit for 256^(w-1-i), of negative and of truncated integers too |
| Binary.PutIntEnds | kitex_gen/post/k-post.go:264-269 | the first byte is at least 0x80 exactly for negative integers, the last is the remainder by 256 |
| Wire.HeaderBytes | kitex_gen/post/k-post.go:264-301 | type code, then field id or size, the bytes of each by position |
| Wire.CodesAre | kitex_gen/post/k-post.go:29-146 | the twelve type codes and the bytes a value of fixed size takes |
| ListOverWire.PostBytes | kitex_gen/post/k-post.go:236-318 | a post is sent as exactly the bytes 0A 00 01 and the id, 0A 00 02 and the user, 0B 00 03, length and title, and so on, then a stop byte |
| Message.TreeReadsBack | kitex_gen/post/k-post.go:1246-1370 | the bytes of any conforming tree of structs, lists and maps read as its meaning and are consumed exactly, whatever bytes follow |
| Acceptance.AcceptsIff | kitex_gen/post/k-post.go:1246-1370 | the converse: FastRead accepts a byte sequence exactly when it starts with the bytes of a conforming tree, and then returns that tree's meaning and length |
| Acceptance.NoTreeStartsAnother | kitex_gen/post/k-post.go:1246-1370 | conforming trees of one type are never printed as the start of one another, and equal bytes mean equal values |
| Message.FieldsReadBack | kitex_gen/post/k-post.go:29-146 | reading printed fields into any struct gives the fold of the fields over it |
| Message.FoldAt | kitex_gen/post/k-post.go:59-120 | after reading, a field holds the last accepted value for its id, or what it held before |
| Message.ReorderedFieldsReadTheSame | kitex_gen/base/k-base.go:475-484 | distinctly numbered fields read as the same struct in any order, so the writer's order 2, 1, 3 is harmless |
| Message.IgnoredFieldReadsTheSame | kitex_gen/base/k-base.go:334-409 | a well-formed field with an unknown id or another type changes nothing wherever it stands |
| Message.RepeatedFieldLastWins | kitex_gen/post/k-post.go:1246-1321 | of several accepted fields with one id the last one decides |
| Message.RepeatedKeyLastWins | kitex_gen/post/k-post.go:3495-3557 | of several map entries with one key the last one decides |
| Message.FreshFields | kitex_gen/post/post.go:11-24 | a message of one stop byte reads as zeros, empty strings and nils |
| Message.ScalarBytes | kitex_gen/post/k-post.go:148-160 | what the bytes of a scalar mean: a bool is true for the byte 1 alone, a string follows four bytes of length |
| Wire.SkipPrinted | kitex_gen/post/k-post.go:1294-1301 | skipping a well-formed value of any type consumes exactly its bytes |
| Acceptance.SkipsIff | kitex_gen/post/k-post.go:1294-1301 | a skip succeeds exactly on what starts with a well-formed value of the type |
| Writing.WrittenMeansNorm | kitex_gen/post/k-post.go:3587-3629 | whatever order the maps are visited in, what is written means the value, nil required structs, lists and maps made empty |
| Writing.WrittenLength | kitex_gen/post/k-post.go:3631-3665 | the bytes written for a value are as many as BLength says, in every map order |
| Writing.FixedEntriesLength | kitex_gen/post/k-post.go:3645-3652 | the closed form of a map whose keys and values have fixed sizes is the length of what is written |
| Writing.FixedMapLength | kitex_gen/post/k-post.go:3645-3652 | for the i64-to-i32 map it is 6 + 12 * entries |
| Writing.FixedItemsLength | kitex_gen/post/k-post.go:3173-3180 | a list of fixed-size items takes size times length |
| Writing.RoundTrip | kitex_gen/post/k-post.go:1246-1449 | a value written in any map order and followed by any bytes reads back as itself up to normalisation, consuming BLength bytes |
| Writing.StructRoundTrip | kitex_gen/base/k-base.go:334-555 | the same for FastRead into a new struct |
| Writing.NormOfNormal | kitex_gen/post/k-post.go:1398-1424 | a value without stray nils reads back exactly |
| FastCodec.Struct.FastRead | kitex_gen/post/k-post.go:1246-1321 | on every byte sequence the loop ends, stays inside the buffer, and leaves in the fields what the reading function says, or fails at the offset it says |
| FastCodec.FastReadField | kitex_gen/post/k-post.go:1323-1370 | a field reader gives the value and offset of the reading function, nested structs included |
| FastCodec.FastReadItems | kitex_gen/post/k-post.go:2788-2811 | the element loop reads exactly size elements or fails |
| FastCodec.FastReadEntries | kitex_gen/post/k-post.go:3495-3557 | the entry loop collects the entries, a repeated key keeping its last value |
| FastCodec.FastWrite | kitex_gen/post/k-post.go:1372-1424 | exactly BLength bytes change, and they are a printing the writer relation allows for the value |
| FastCodec.FastWriteFields | kitex_gen/base/k-base.go:475-526 | the fields in the writer's order, unset optional ones left out, then the stop byte |
| FastCodec.FastWriteList | kitex_gen/post/k-post.go:1398-1410 | the elements, with the header patched in afterwards |
| FastCodec.FastWriteMap | kitex_gen/post/k-post.go:3601-3629 | every entry once, in any order, with the header patched in afterwards |
| FastCodec.BLength | kitex_gen/post/k-post.go:1387-1449 | closed forms where elements or entries have fixed size, loops elsewhere, together give the length of what is written |
| FastCodec.BLengthEntries | kitex_gen/post/k-post.go:3645-3663 | the entries of a map: counted if both sides have fixed size, else visited |
| FastCodec.BLengthItems | kitex_gen/post/k-post.go:3173-3180 | the same for the elements of a list |
| FastCodec.SendAndReceive | kitex_gen/post/k-post.go:1246-1449 | allocate BLength bytes, write, append anything, read: the normalised message arrives |
| Truncation.ValLocal | kitex_gen/post/k-post.go:3495-3557 | a read that succeeds gives the same on any longer input |
| Truncation.TruncatedMessageRejected | kitex_gen/post/k-post.go:1246-1370 | no proper prefix of a written value is ever accepted |
| Schemas.SimpleSchemasValid | kitex_gen/post/k-post.go:348-594 | the schemas of Base, BaseResp, Post, PostFilter and the pagination structs are valid, so the codec laws apply to them |
| Schemas.StatsSchemasValid | kitex_gen/post/k-post.go:3376-3665 | so are those of the statistics, the create request and the subject |
| Schemas.RequestSchemasValid | kitex_gen/auth/k-auth.go:1028-1413 | so are those of the requests |
| Schemas.ResponseSchemasValid | kitex_gen/post/k-post.go:3764-4100 | so are those of the responses |
| Schemas.AuthSchemasValid | kitex_gen/auth/k-auth.go:29-1642 | so are those of the login and token messages |
| Transport.ErrorArrives | internal/adapt/post.go:143-156 | an error in any response reaches the gateway through the bytes as Reported says |
| Transport.OkArrives | internal/adapt/post.go:129-131 | a success is never mistaken for an error |
| Transport.ErrFieldsAre | internal/adapt/post.go:143-156 | message, status and code stand in fields 1, 2 and 3 of the answer |
| Transport.ServiceErrorsReported | internal/rpcclient/postclient.go:79-95 | 404 and 422 keep code, message and status, 500 becomes the fixed internal error |
| Transport.ErrorLostIff | internal/rpcclient/postclient.go:79-95 | an error arrives as nil exactly when it is an AppError whose status is 0 as a 32-bit integer |
| Arriving.MessageArrives | kitex_gen/auth/k-auth.go:1028-1145 | a message whose fields normalise to g is read as g from its bytes |
| Abac.FirstMatchDecides | internal/abac/policy.go:107-118 | the first matching policy decides: its effect is the answer and its name is given |
| Abac.NoMatchDenies | internal/abac/policy.go:107-118 | without a match the answer is the default deny |
| Abac.MatchesIff | internal/abac/policy.go:55-70 | a policy applies to its resource, action and role, "*" standing for any, under its condition |
| Abac.DefaultAccess | internal/abac/policy.go:74-103 | the default policies allow exactly: admins anything, editors write, read, and delete with mfa, viewers read, all on posts |
| Abac.DefaultPoliciesNilBlind | internal/abac/policy.go:80-89 | the default policies cannot tell nil subject attributes from empty ones |
| Abac.RequestArrives | cmd/authsvc/handler.go:84-92 | the server sees the request sent, its nil subject attributes made empty, each part in the field with its number |
| Abac.AuthorizeOverWire | internal/rpcclient/authclient.go:93-109 | Authorize through both messages gives the Decision Evaluate gives in process, whatever the map orders and trailing bytes |
| ListOverWire.ListRequestArrives | internal/adapt/post.go:54-113 | the filter arrives as it was sent and the page as the casts and defaults make it |
| ListOverWire.RequestFieldsAre | internal/adapt/post.go:54-113 | user, search, key and order are fields 1 to 4 of the filter, empty ones unset, and the page numbers fields 1 and 2 of the page |
| ListOverWire.ListResponseArrives | internal/adapt/post.go:19-52 | the posts arrive in order, each value in the field with its number, unchanged but for the precision of their times, the page data cast to 32 bits, without error |
| AnalysisOverWire.AnalysisArrives | cmd/postsvc/handler.go:107-148 | the client rebuilds the answer with totals, median and map counts cast to 32 bits and each character through its string, without error, whatever the map orders |
| AnalysisOverWire.ReportIs | cmd/postsvc/handler.go:113-137 | which number of the analysis is reported as which, the periods under their names |
| AnalysisOverWire.AnswerFieldsAre | cmd/postsvc/handler.go:141-148 | and in which field of the answer it is sent |
| AnalysisOverWire.AnalysisUnchangedIff | internal/rpcclient/postclient.go:198-235 | for the analysis of any posts that is the answer itself exactly when the number of posts and the median are below 2^31 |
| Analytics.FewCharacters | internal/service/post_service.go:339-346 | the number of different characters always fits 32 bits |
| Utf8.EncodedReadsBack | internal/rpcclient/postclient.go:206-214 | every scalar value, encoded and followed by anything, decodes to itself and its own width |
| Utf8.EncodedShape | internal/rpcclient/postclient.go:206-214 | one to four bytes by the size of the rune, with the lead and continuation bytes of RFC 3629 |
| Utf8.EncodedInOrder | internal/rpcclient/postclient.go:206-214 | characters stand in the byte order of their numbers, which with the shape fixes every encoding |
| Utf8.StrayByte | internal/rpcclient/postclient.go:206-214 | bytes that start with no encoded character lose one byte to U+FFFD |
| Utf8.DecodedEncodesBack | internal/rpcclient/postclient.go:206-214 | a well-formed character is the only encoding of its rune |
| Utf8.CountedRuneSurvives | cmd/postsvc/handler.go:114-121 | a rune counted in any text survives string(r) and []rune(s)[0] |
| Utf8.CutAtBoundary | internal/handlers/handlers.go:411-419 | a cut where the decoder stops splits the runes |
| Utf8.CutInside | internal/handlers/handlers.go:411-419 | a cut inside a character of w bytes replaces its rune by w copies of U+FFFD and touches nothing else |
| CharCount.ChunksPartition | internal/handlers/handlers.go:408-419 | the four chunks are non-empty and concatenate to the text |
| CharCount.ChunkSizes | internal/handlers/handlers.go:408-419 | the first three chunks have a quarter of the bytes each, rounded up |
| CharCount.ChunkedIs | internal/handlers/handlers.go:411-430 | the chunked count is the sum of those of the four chunks, each decoded by itself |
| CharCount.ChunkedAgainstSimple | internal/handlers/handlers.go:387-435 | chunked and simple counts agree exactly when every cut is a boundary; otherwise other runes are short by at most 3 and U+FFFD over by at most 12, never short |
| CharCount.ChunkedDiffers | internal/handlers/handlers.go:408-435 | a text on which they differ |
| CharCount.CountRunes | internal/handlers/handlers.go:393-398 | the loop counts each rune of the text as often as it occurs |
| CharCount.Merge | internal/handlers/handlers.go:427-430 | merging adds the worker's counts key by key in any order |
| CharCount.CountCharacters | internal/handlers/handlers.go:387-435 | whatever order the workers merge in, the result is the simple count up to 1000 bytes and the chunked count above |
| Tokenizer.Tokenize | internal/cli/repl.go:122-159 | the loop over the decoded line gives the tokens, or the error, of the scanning function |
| Tokenizer.RenderedReadsBack | internal/cli/repl.go:128-153 | on runes: a line of arguments, each made of adjacent quoted and bare pieces, separated by blanks, gives what the pieces mean |
| Tokenizer.EveryLineIsRendered | internal/cli/repl.go:122-159 | the converse: every line that tokenizes is such a line, so its tokens are what its pieces mean |
| CommandLine.RenderedLineReadsBack | internal/cli/repl.go:122-159 | on bytes: a line of words made of adjacent parts with and without quotes, separated and followed by blanks, tokenizes to the bodies put together |
| CommandLine.WordsAreThemselves | internal/cli/repl.go:128-153 | words of valid UTF-8 without quotes and blanks, joined by blanks, are the tokens |
| CommandLine.TokensOfSomeLineIff | internal/cli/repl.go:119-159 | a list of strings is the tokens of some line exactly when every one of them is valid UTF-8 |
| CommandLine.NoLineGivesAStrayByte | internal/cli/repl.go:127-153 | no line gives the string of the one byte 0xFF |
| Tokenizer.JoinedByBlank | internal/cli/repl.go:128-134 | on runes: if a scans, a blank and b after it give both token lists in a row, or fail as b does |
| CommandLine.LinesJoinedByBlank | internal/cli/repl.go:122-159 | on bytes: if the line a tokenizes, a + " " + b gives both token lists in a row, or fails as b does, even if a ends inside a character |
| Tokenizer.FailsIffUnclosed | internal/cli/repl.go:154-156 | it fails exactly when a quote is opened outside every other and never closed |
| Sorting.InsertionSort | internal/service/post_service.go:432-453 | in place, a permutation in order by any total preorder the comparator does not contradict |
| Sorting.OrderedUnique | internal/service/post_service.go:518-520 | two orderings of the same elements by an antisymmetric order are equal |
| Posts.StringLeIff | internal/service/post_service.go:438-440 | strings compare in lexicographic byte order |
| Listing.FilterPosts | internal/service/post_service.go:396-421 | the loop keeps the posts the filter keeps, in order |
| Listing.KeepsIff | internal/service/post_service.go:401-418 | a post is kept for the user asked for, if any, and the text searched for in title or body, if any, case ignored |
| Listing.FilteredCounts | internal/service/post_service.go:396-421 | exactly the matching posts are kept, each as often as it is there |
| Listing.ComparatorSorts | internal/service/post_service.go:432-453 | for every key and order, even with the non-strict descending comparator, sorting is by a total preorder the comparator follows |
| Listing.InOrderIff | internal/service/post_service.go:432-453 | which field each key compares, and which way: descending for "" and "desc", ascending otherwise, by id for an unknown key |
| Listing.SortPosts | internal/service/post_service.go:423-456 | a permutation in the chosen order, unchanged if no key is asked for |
| Listing.HasNextIff | internal/service/post_service.go:458-476 | HasNext holds exactly when page * size is below the total |
| Listing.MetaIs | internal/service/post_service.go:458-476 | page, size and total as they are, HasPrev exactly from page 2 on, and the fewest pages that hold the total, at least one |
| Listing.PageAt | internal/service/post_service.go:107-118 | item j of a page is item (page - 1) * size + j of the list, as far as both go |
| Listing.PagesCoverList | internal/service/post_service.go:107-118 | pages 1 to TotalPages concatenate to the list, later pages are empty |
| Listing.ServedPageSafe | internal/adapt/post.go:96-113 | for any 64-bit page and size nothing divides by zero or overflows, the asked page is answered exactly when both are in 1..2^31-1, and 32-bit numbers below 1 become page 1 and size 20 |
| Listing.ApiPageServed | internal/api/api.go:570-586 | through the HTTP API the asked page is answered exactly when its number fits 32 bits; a size outside 1..100 becomes 20 |
| Listing.ListPosts | internal/service/post_service.go:97-121 | filter, sort and page in sequence answer as the pipeline allows |
| Listing.AnswerIsMatchingPosts | internal/service/post_service.go:97-121 | the list before paging is a permutation of exactly the posts of the user with the text in title or body, in the chosen order |
| Listing.AnswerInOrder | internal/service/post_service.go:432-453 | of two posts in it the first has the smaller or equal createdAt, updatedAt, title or id, or the greater or equal one, as key and order say |
| Listing.UnsortedAnswer | internal/service/post_service.go:396-430 | without a filter all posts are listed as stored, without a key the matching ones are |
| Analytics.CalculateTopCharacters | internal/service/post_service.go:478-501 | min(20, unique) distinct characters with their counts and frequencies, non-increasing, none left out with a higher count than one kept |
| Analytics.CalculateAverage | internal/service/post_service.go:503-512 | the average times the number of values is their sum; 0 for none |
| Analytics.CalculateMedian | internal/service/post_service.go:514-527 | the middle of a sorted permutation, or the sum of the two middle values halved toward zero |
| Analytics.MedianUnique | internal/service/post_service.go:518-526 | there is only one such value |
| Analytics.MedianBetween | internal/service/post_service.go:521-526 | some value is at most the median and some value at least |
| Analytics.CalculateTimeDistribution | internal/service/post_service.go:529-548 | each post is counted once, under the period of its hour |
| Analytics.Analyze | internal/service/post_service.go:313-366 | the loop's counts, the top characters, the average and the median are those of the posts |
| Analytics.AnalysisIs | internal/service/post_service.go:327-363 | users and periods are counted by the posts that have them, and the average times the posts is the sum of title + 1 + body |
| Analytics.TopCharacterIs | internal/service/post_service.go:478-501 | a top character has its count and the percentage that count is of all characters |
| Analytics.TextsMore | internal/service/post_service.go:334-342 | each post adds the runes of its title, one blank and the runes of its body |
| Analytics.PeriodIs | internal/service/post_service.go:532-544 | night before 6, morning before 12, afternoon before 18, evening after |
| Analytics.AnalysisAddsUp | internal/service/post_service.go:327-363 | character counts sum to TotalCharacters, per-user and time-of-day counts to TotalPosts, and every top character survives as a string |
| Store.AppendAdds | internal/storage/file.go:104-116 | posts numbered from the highest id on get fresh ids, keep the ids positive and increasing, and leave every other post |
| Store.BatchAdds | internal/storage/file.go:230-246 | a batch is added whole under consecutive fresh ids, each post as it was but for the id and times that were zero |
| Store.ReplaceUpdates | internal/storage/file.go:146-158 | an update changes one entry of the stored map |
| Store.RemoveDeletes | internal/storage/file.go:186-199 | a delete removes exactly one post and keeps the order |
| Store.FileStorage.GetByID | internal/storage/file.go:59-81 | the first post with the id, ErrNotFound when there is none, or the read error |
| Store.FileStorage.Create | internal/storage/file.go:84-124 | validation, then the highest id plus one, then the write; the file is unchanged by any failure, the caller's post has its id and times once the file was read |
| Store.FileStorage.Update | internal/storage/file.go:127-167 | the first post with the id is replaced in place; the file is unchanged by any failure, the caller's post has its new time once the id was found |
| Store.FileStorage.Delete | internal/storage/file.go:170-206 | the posts with another id remain; the file is unchanged by any failure |
| Store.FileStorage.BatchCreate | internal/storage/file.go:209-257 | the numbered batch is appended with its missing times set; the file is unchanged by any failure, the caller's slice is numbered and dated once the file was read |
| Cache.MemoryCache.Get | internal/cache/cache.go:51-68 | an unexpired entry is served, an expired one is dropped and missed |
| Cache.MemoryCache.Set | internal/cache/cache.go:71-85 | the entry expires its time to live after the clock reading |
| Cache.MemoryCache.Cleanup | internal/cache/cache.go:104-118 | exactly the expired entries go |
| Cache.ServedBeforeExpiry | internal/cache/cache.go:51-118 | reads of other keys and cleanups change no later hit, and a hit is never past its expiration |
| Cache.DecimalInjective | internal/service/post_service.go:26-26 | different ids have different decimal forms |
| Service.KeysDiffer | internal/service/post_service.go:21-26 | post keys differ from each other and from the list's key |
| Service.PostService.GetAll | internal/service/post_service.go:57-121 | a hit or the store's posts, the cache filled on a miss, then the pipeline fresh over them |
| Service.PostService.GetByID | internal/service/post_service.go:124-160 | a hit, or the stored post with the cache filled, or not found |
| Service.PostService.Create | internal/service/post_service.go:163-199 | checked, trimmed, stored, and the list invalidated |
| Service.PostService.Update | internal/service/post_service.go:202-250 | read, edited, stored, and the list and the post invalidated |
| Service.PostService.Delete | internal/service/post_service.go:253-270 | removed, and the list and the post invalidated |
| Service.PostService.BulkCreate | internal/service/post_service.go:273-297 | one creation after the other, counted and listed as they succeed |
| ServiceRuns.CreateSound | internal/service/post_service.go:163-199 | a success stores a valid post under a fresh id, a refusal changes nothing, and every cache entry still equals the store, even when an id is used again |
| ServiceRuns.UpdateSound | internal/service/post_service.go:202-250 | a success changes exactly that post and leaves every cache entry equal to the store |
| ServiceRuns.DeleteSound | internal/service/post_service.go:253-270 | a success removes exactly that post and leaves every cache entry equal to the store |
| ServiceRuns.BulkSound | internal/service/post_service.go:273-297 | the reported ids are distinct, fresh and stored, and nothing else changes |
| ServiceRuns.BulkCounts | internal/service/post_service.go:282-293 | the successes and the refusals, counted separately, add up to the number requested, with one id per success |
| ServiceRuns.PostCachedUntilTtl | internal/service/post_service.go:130-157 | a post read once is answered without the disk for 30 seconds after it was cached, and not longer |
| ServiceRuns.ListCachedUntilTtl | internal/service/post_service.go:67-95 | the same for the list and 10 seconds |
| ServiceRuns.GetOutcome | internal/service/post_service.go:124-160 | with a readable file a get answers the stored post, cached or not, or that there is none |
| ServiceRuns.ListOutcome | internal/service/post_service.go:57-95 | and a list works on all stored posts |
| ServiceRuns.ReadsOwnWrite | internal/service/post_service.go:124-250 | in every run a get after a create or update answers the very post that call answered, unless a call between changes or removes it |
| ServiceRuns.CreateOutcome | internal/service/post_service.go:163-199 | with a working disk a create succeeds exactly for texts of 1 to 500 and 1 to 10000 bytes that do not trim to nothing, and stores user and trimmed texts under an id above all others |
| ServiceRuns.BulkOutcome | internal/service/post_service.go:282-293 | each request of a bulk creation succeeds or fails as it would alone, in their order |
| ServiceRuns.UpdateFaults | internal/service/post_service.go:220-232 | a title over 500 bytes, else a body over 10000, is the fault named |
| ServiceRuns.UpdateOutcome | internal/service/post_service.go:202-250 | with a working disk an update succeeds exactly for a stored post, texts within limits and none that trims to nothing; it stores user and trimmed texts as given and keeps what the request leaves empty, the id and the creation time |
| ServiceRuns.DeleteOutcome | internal/service/post_service.go:253-270 | with a working disk a delete succeeds exactly for a stored post |
| ServiceRuns.StepSound | internal/service/post_service.go:26-270 | every call and every cleanup keeps the invariant and answers like the service without cache |
| ServiceRuns.RunSound | internal/service/post_service.go:26-270 | over every sequential run the cached service answers like the uncached one; a read of an unreadable file may be answered as if it were readable |
| ServiceRuns.RunFromEmpty | internal/storage/storage.go:54-68 | from an empty file every reachable store has increasing positive ids and only valid posts |
| ServiceRuns.ServiceErrorsArrive | internal/service/post_service.go:143-150 | a missing post reaches the gateway as a 404, a validation error as a 422 with its message, everything else as the fixed 500 |
| ServiceRuns.ServiceErrorOverWire | internal/adapt/post.go:143-156 | the same through the bytes of any response |
| ServiceRuns.BlankDraftRefused | internal/service/post_service.go:174-183 | a draft that passes the check is refused exactly when trimming empties it, and then as a 500 |
| ServiceRuns.BlankTitle | internal/service/post_service.go:374-376 | a title of one blank is such a draft |
| CacheRace.ServedWasHeld | internal/service/post_service.go:67-95 | in every interleaving an answer is one the store really held, and one from the cache was set within its time to live |
| CacheRace.CleanFillsSuffice | internal/service/post_service.go:73-94 | fills with no write between read and set are in time |
| CacheAlone.ReadAlone | internal/service/post_service.go:124-160 | the steps of a reader that is not interrupted answer and leave the cache as one call of the sequential service does |
| CacheAlone.CreateAlone | internal/service/post_service.go:163-199 | so do those of a create |
| CacheAlone.UpdateAlone | internal/service/post_service.go:202-236 | of an update, with its two accesses to the store |
| CacheAlone.DeleteAlone | internal/service/post_service.go:253-270 | and of a delete |
| CacheRace.ReadsAfterInvalidateAreFresh | internal/service/post_service.go:44-54 | while fills are in time, no read begun after an invalidation of its key answers from an older version |
| CacheStale.FreshIffFillsInTime | internal/service/post_service.go:44-54 | over every run, all fills are in time exactly when no state of it, continued with fills in time, leads to a read begun later and answered from a version its key was already invalidated for |
| CacheStale.OldReadIffOldEntry | internal/service/post_service.go:67-95 | with clean fills, a later read of a key can be answered from before a given version exactly when an unexpired entry older than it is in the cache |
| CacheStale.CreateMissedIff | internal/service/post_service.go:182-188 | a read begun after a create has been written can miss the post exactly when an unexpired entry for its id is in the cache |
| CacheStale.CreateMissedNeedsPendingDelete | internal/service/post_service.go:260-268 | while fills are in time, such an entry needs a writer that has yet to invalidate that post |
| CacheStale.DroppingSuffices | internal/service/post_service.go:46-54 | after a writer has dropped a key no later read of it is answered from before any version written so far, so dropping the post's key in Create suffices |
| CacheRace.OnlyPendingEntriesAreStale | internal/service/post_service.go:44-54 | while fills are in time, an entry differs from the store only as long as a writer is still to drop it |
| CacheStale.LateFillServesOldPost | internal/service/post_service.go:124-160 | a run in which a read begun after an update's invalidation gets the old post |
| CacheStale.CreateServesDeletedPost | internal/service/post_service.go:182-188 | a run with clean fills in which a read begun after a create gets the deleted post |
| CacheStale.OldIsNotNew | internal/service/post_service.go:229-236 | the posts of those two runs differ |
| LostUpdate.UpdateAtomicIff | internal/service/post_service.go:208-236 | in every run what an update stores is what one step over the current post would store exactly when nothing the request leaves alone has changed since its read |
| LostUpdate.UndisturbedUpdateIsAtomic | internal/service/post_service.go:208-236 | with no write of the post between its read and its write, an update loses nothing |
| LostUpdate.UpdateIsLost | internal/service/post_service.go:208-236 | a run in which two updates succeed and the second takes back the first one's title |
| Kafka.Broker.Consume | internal/messaging/kafka/kafka.go:73-89 | the loop of one incarnation changes the partition as the specification says, whatever ends it |
| Kafka.RunSafe | internal/messaging/kafka/kafka.go:73-89 | over any run with crashes and failed commits every offset below the committed one was handled, in log order within an incarnation, with at most committed + restarts + 1 calls |
| Kafka.LoopAdvances | internal/messaging/kafka/kafka.go:82-87 | an incarnation starts at the committed offset, goes on one by one, and commits all its calls but at most the last |
| Kafka.IncarnationIs | internal/messaging/kafka/kafka.go:73-89 | what an incarnation that commits k messages and then ends in each of the possible ways has called and committed |
| Kafka.CatchesUp | internal/messaging/kafka/kafka.go:73-89 | one that meets no failure commits everything there is |
| Kafka.BoundReached | cmd/analytics-consumer/main.go:59-71 | for every number of restarts and of committed messages some run makes exactly committed + restarts + 1 calls |
| Rabbit.Handler | cmd/reanalysis-worker/main.go:71-93 | an error exactly for a job that can be parsed and whose analysis failed |
| Rabbit.StepConserves | internal/messaging/rabbitmq/rabbitmq.go:45-81 | every step keeps published = ready + unacknowledged + removed |
| Rabbit.QueueSafe | internal/messaging/rabbitmq/rabbitmq.go:60-81 | in every run that equation holds, no job is held twice, and a job is removed only after a successful analysis or if it cannot be parsed |
| Rabbit.NothingIsLost | internal/messaging/rabbitmq/rabbitmq.go:36-57 | a published job that is not removed or held can be delivered |
| Rabbit.RemovedByItsAck | internal/messaging/rabbitmq/rabbitmq.go:70-79 | in every run a job leaves the queue only by the ack of its own delivery, when it is done |
| Rabbit.RemovedForGood | internal/messaging/rabbitmq/rabbitmq.go:60-81 | a removed job is never ready or held again |
| Rabbit.TurnSettles | internal/messaging/rabbitmq/rabbitmq.go:70-79 | one turn of the loop puts the job back if it can be parsed and its analysis failed, else removes it, and touches no other |
| Rabbit.Channel.Consume | internal/messaging/rabbitmq/rabbitmq.go:60-81 | the delivery loop leaves what that many turns leave, every delivery settled |
| Migrator.MigrationsSafe | internal/migrations/migrations.go:35-85 | with several migrators and any failure the recorded versions are 1..k, each with a completed Up; an Up starts only when all lower ones are recorded; a nil return leaves all recorded |
| Migrator.NextMigrateDoesNothing | internal/migrations/migrations.go:50-53 | in every run, once all versions are recorded they stay so, and a migrator called from then on never opens a transaction, runs an Up or adds a row |
| Migrator.UpOutlivesRollback | internal/migrations/migrations.go:57-73 | a run that fails with Up done and nothing recorded |
| Migrator.UnrecordedUp | internal/migrations/migrations.go:57-73 | in every run a completed Up is unrecorded exactly when its version is the one after the last recorded |
| Migrator.UpRunsAgain | internal/migrations/migrations.go:48-73 | if nobody who has run it is still at work, that version is recorded only after another Up of it has completed |
| Migrator.Database.Migrate | internal/migrations/migrations.go:35-85 | alone, it succeeds exactly when no call fails, records the versions before the first failure, and that one too if only the answer to its commit is lost, runs the missing Ups in order, and runs one more than it records exactly when that failure is at the insert or the commit |
| Limiter.RateLimiter.Allow | internal/middleware/middleware.go:205-227 | the client's window is opened, counted or full, and no other client's changes |
| Limiter.RateLimiter.Cleanup | internal/middleware/middleware.go:229-239 | exactly the entries older than two windows go |
| Limiter.ClientsIndependent | internal/middleware/middleware.go:205-239 | other clients and cleanup ticks anywhere change no decision |
| Limiter.AllowedIff | internal/middleware/middleware.go:205-227 | in every run request i of a client is allowed exactly when fewer than limit of its requests have come since its window opened; a window opens with the first request after the last one has passed |
| Limiter.RefusedWhenFull | internal/middleware/middleware.go:212-223 | a refused request has limit allowed ones of that client within the window before it |
| Limiter.AtMostTwiceTheLimit | internal/middleware/middleware.go:205-227 | over every run with time not running back, any closed interval of one window holds at most 2 * limit - 1 allowed requests of a client, limit for a window of 0, a limit below 1 counting as 1 |
| Limiter.BoundReached | internal/middleware/middleware.go:212-226 | for every limit and window, 0 included, some run reaches that bound |

## Left out

- The `NocopyWriter` path, TTHeader framing, `Args` and `Result` wrappers and the texts of codec errors: they repeat the struct pattern or belong to the library.
- The library's limit on the nesting of skipped fields: the skip loop of the runtime is modelled without it.
- Doubles are opaque 64-bit patterns on the wire and reals in averages and frequencies; rounding is not modelled.
- Sorting.InsertionSort: `sort.Slice` and `sort.Ints` use it on short slices only; their other algorithms belong to the library and are not part of this model, and for longer slices the results hold if the library sorts.
- JSON in the cache and in the file: marshalling and unmarshalling are taken to be inverse, and a file write to be atomic.
- `strings.ToLower`, `strings.TrimSpace` and the RFC 3339 formatting of times are parameters of the model.
- The wrapped cause of an `AppError` and the fields of a validation error, which the wire drops, and the error texts `BulkCreate` collects.
- `PostgresStorage`, `RedisCache`, MinIO, Triton, JWT, bcrypt, export formats and HTML sanitising: their behaviour lives in libraries and servers.
- HTTP routing, middleware other than the limiter, CLI commands, templates, logging, metrics and configuration.
- Kafka rebalancing and several partitions. The ordering the comment at `internal/messaging/kafka/kafka.go:36-38` speaks of is not claimed: the balancer at line 29 ignores keys.
- `Down` migrations: nothing calls them.
- Listing.ListPosts: two calls may order posts with equal keys differently, so pages fetched by separate calls are related only through one list.
- Migrator.Database.Migrate: the failures met are given per migration as a parameter, the interleaving of several migrators is in the state machine.
