# Verified model of the data packet cache

The cache keeps the last few minutes of seismic data packets in memory, one bounded deque per stream,
and answers range queries on them.  This project models its core in Dafny and proves what it keeps,
what it answers and what it drops, over single operations and over whole runs.

`dafny verify dfyconfig.toml` checks everything.

| file | what it holds |
|---|---|
| `Deque.dfy` | the meaning of the deque of one stream: its invariant, adding, expiring, asking |
| `DequeAdd.dfy`, `DequeRetention.dfy` | additions: the promise of one addition, whole runs, order of arrival, what may be lost |
| `DequeQuery.dfy`, `DequeExpiry.dfy` | the shape and the exactness of answers; expiry and when later queries can see it |
| `ExpiryRuns.dfy` | whole runs on disjoint packets: which events a query can depend on |
| `Witnesses.dfy` | reachable deques on which a promise or an exact answer fails |
| `StreamDeque.dfy` | the class with the deque, its branches, its two binary searches and its copy loop |
| `MapModel.dfy`, `KeyOrder.dfy`, `StreamDequeMap.dfy` | the keyed collection: its meaning, its runs, the order of its keys, the class |
| `Text.dfy`, `Identifiers.dfy` | the key codec: printing, parsing and converting stream identifiers |
| `PacketTimes.dfy`, `ContinuousData.dfy` | end times, and the bridge from a sampling rate to exact answers |
| `PacketConversion.dfy` | conversion and validation of packets |
| `ImportQueue.dfy` | the drop-oldest queue under every interleaving of producer and consumer |
| `Subscriber.dfy` | the reconnect loop |
| `Messages.dfy`, `Wrappers.dfy` | messages, options and results |

Conventions.  Times are unbounded integers in nanoseconds; a double is an exact real; characters follow
the C locale; an exception is a `Result` or `Outcome` value that carries its message.  The clock, the
outcome of a connection attempt, the reads of the stop flag and the moments at which the other thread
acts are inputs.  Assertions of the debug build are `assert` statements or results.  The specification
of a class method is a function on the old contents (`Added`, `Expired`, `Answer`, `Offered`,
`AllExpired`); the lemmas are about those functions, so they speak about the code through the methods'
contracts.

Where the code does not do what its comments and names say, the model follows the code:

* A packet of zero length (one sample) at the end of a deque does not stop another packet with the same
  start time from being stored (src/streamDeque.cpp:83); everywhere else the first arrival wins.
  `AddKeepsPromiseIff` gives the exact condition for one addition, `KeptAreFirstsIff` for a whole list of
  arrivals, `APointIsStoredTwice` an example.
* A query that starts after the start of the newest packet returns nothing, even inside that packet
  (src/streamDeque.cpp:218), and a query that falls into a gap returns the single next packet
  (src/streamDeque.cpp:228-249).  Examples are `InsideTheNewestPacket` and `InsideAGap`.
* With overlapping packets an answer can miss packets in two more ways.  The early exit of the copy loop
  can leave out a packet inside the range, and then the debug assertion at src/streamDeque.cpp:269 fails
  (`EarlyExitIff`, `EarlyExitLosesAPacket`).  And the single step back at src/streamDeque.cpp:219-226
  misses a packet that still runs when a later one before the range is already over.
* `ExactIff` gives the exact condition, on every sorted deque and for every query, for the answer to be
  the overlapping packets; it covers every way in which it is not.
* An expiry can change the answers of later queries: a packet missed by the single step back is found
  once the packet that hides it has expired.  `ExpiryIsInvisibleIff` gives the exact condition,
  `ExpiryShowsAHiddenPacket` an example; on disjoint packets it never happens, in a single expiry or over
  a whole run (`ExpiriesOfARunAreInvisible`).
* An identifier with a dot in a field is accepted, may share its key with another stream, and makes the
  listing of the streams throw from then on.  `RoundTripIffClean`, `DottedKeysClash` and
  `ListingSucceedsIff` say exactly when.
* The number of dropped packets that the import reports is an upper bound (src/main.cpp:244-263): one is
  reported when the queue is found full at first, even if the consumer then makes the room.
  `Importer.AddPacket` says exactly when the report is right.

## Model

| member | source | states |
|---|---|---|
| StreamDeques.UpperBound | src/streamDeque.cpp:135-141 | the search returns the first packet that starts at or after the time, because its comparator gets the value first |
| StreamDeques.LowerBound | src/streamDeque.cpp:237-242 | the search returns the first packet that starts after the time |
| StreamDeques.StreamDeque.constructor | src/streamDeque.cpp:43-50 | a new deque is empty, valid and stamped with its creation time |
| StreamDeques.StreamDeque.Create | src/streamDeque.cpp:285-309 | construction succeeds exactly for acceptable packets with a printable identifier, and then holds that one packet |
| StreamDeques.StreamDeque.AddPacket | src/streamDeque.cpp:313-345 | exactly which packets are rejected, in the release and in the debug build; a rejected packet changes nothing, an accepted one has the effect of Added and stamps the update time |
| StreamDeques.StreamDeque.AddConverted | src/streamDeque.cpp:52-66 | start and end time are those of the packet; a packet without samples or rate changes nothing |
| StreamDeques.StampedTimes | src/utilities.cpp:60-107 | what is stored is the packet, its start in nanoseconds and an end that is as many sampling periods later as there are further samples, to the nearest nanosecond |
| StreamDeques.StreamDeque.StoreNew | src/streamDeque.cpp:68-175 | all branches together compute Added, every one stamps the update time, the search never returns the end, and the deque is sorted where the debug build asserts it |
| DequeAdd.AddKeepsPromiseIff | src/streamDeque.cpp:68-172 | one addition keeps the first arrival per start time and the newest packets exactly when it does not repeat a point at the end of the deque (or the deque is full of that very packet) |
| DequeAdd.AddedIsConsistent | src/streamDeque.cpp:78-172 | an addition keeps the deque sorted and within its capacity, with start times repeated only after zero-length packets |
| DequeAdd.AddingConserves | src/streamDeque.cpp:68-172 | exactly which packets an addition refuses; one that is taken goes behind all that start no later, and every other packet stays in its order except the oldest of a full deque |
| DequeAdd.Run | src/streamDeque.cpp:52-186 | every state reachable by additions and expiries is sorted, within capacity, and repeats start times only after zero-length packets |
| DequeAdd.RunIsNewestOfKept | src/streamDeque.cpp:68-172 | after any additions in any order the deque holds the newest of what a deque without a bound would hold, so cutting to the capacity each time is cutting once at the end |
| DequeAdd.KeptAreFirstsIff | src/streamDeque.cpp:78-155 | a deque without a bound holds just the first arrivals, each with its first payload, exactly when no packet arrives at the latest start time so far while only packets of zero length had it |
| DequeAdd.RunKeepsNewestFirsts | src/streamDeque.cpp:68-172 | after additions in any order of which none does so, the deque holds the newest first arrivals with their first payload |
| DequeAdd.FirstsAreTheFirstArrivals | src/streamDeque.cpp:142-155 | the list this refers to is ascending and its members are exactly the first arrivals of their start times |
| DequeAdd.ArrivalOrderDoesNotMatter | src/streamDeque.cpp:78-172 | permutations of packets with distinct start times leave the same deque, the newest of them in order |
| DequeRetention.NothingIsLostWithoutReason | src/streamDeque.cpp:78-186 | an offered start time stays retained unless a later event fills the deque with newer packets or expires a packet of that start time |
| StreamDeques.EraseExpired | src/streamDeque.cpp:177-186 | the erasing loop keeps exactly the packets that do not end too early, in order, and counts the others |
| StreamDeques.StreamDeque.RemoveExpiredPackets | src/streamDeque.cpp:177-186 | the deque becomes its expired form and the 32-bit count is the number of packets removed |
| DequeAdd.ExpiredMembers | src/streamDeque.cpp:179-184 | a packet is left by an expiry exactly when it was stored and does not end before the time |
| DequeExpiry.ExpiryRemovesExactly | src/streamDeque.cpp:179-184 | with multiplicities: all copies of packets that end before the time go, all others stay |
| DequeExpiry.ExpiryComposes | src/streamDeque.cpp:177-186 | expiring twice is expiring at the later time, and the counts add up |
| DequeExpiry.ExpiredIsSuffix | src/streamDeque.cpp:177-186 | when end times are in order the removed packets are a prefix |
| DequeExpiry.ExpiryIsInvisibleIff | src/streamDeque.cpp:177-272 | on every sorted deque: no query that starts at or after the expiry time can tell that it happened, exactly when no packet is hidden then behind one that is over |
| DequeExpiry.HiddenPacketAppears | src/streamDeque.cpp:177-272 | when a packet is hidden, the query at the expiry time itself is answered differently after the expiry |
| DequeExpiry.ExpiryIsInvisible | src/streamDeque.cpp:177-272 | nothing is hidden when end times are in order, whatever the query |
| DequeExpiry.ExpiryIsInvisibleWhenGapped | src/streamDeque.cpp:177-272 | the same for gapped deques, which stay gapped |
| ExpiryRuns.RunAtQuery | src/streamDeque.cpp:52-186 | on disjoint packets what a run leaves at a time is what its packets not over by then and its later expiries leave, full deques and late arrivals included |
| ExpiryRuns.OnlyMatteringEventsAreSeen | src/streamDeque.cpp:52-272 | so an answer depends on no other event of the run |
| ExpiryRuns.ExpiriesOfARunAreInvisible | src/streamDeque.cpp:52-272 | all expiries of a run up to the start of a query could have been left out without changing the answer |
| Witnesses.ExpiryShowsAHiddenPacket | src/streamDeque.cpp:219-226 | three packets at one sample a nanosecond, added to an empty deque, on which an expiry changes a later answer |
| StreamDeques.StreamDeque.GetAllPackets | src/streamDeque.cpp:188-198 | all packets in order |
| StreamDeques.FirstBound | src/streamDeque.cpp:209-227 | the search with its step back finds where the answer begins, or the end when the query starts after the newest packet |
| StreamDeques.CopyRange | src/streamDeque.cpp:262-267 | the loop copies up to the first place where the answer must end |
| StreamDeques.Query | src/streamDeque.cpp:205-271 | all short cuts and the copy loop together return the packets from the first anchor to the first close; the second bound is past the first at the general copy; when the length assertion holds |
| StreamDeques.StreamDeque.GetPackets | src/streamDeque.cpp:353-364 | a reversed range is rejected, every other one gets the answer |
| Deque.Answer | src/streamDeque.cpp:205-218 | an answer is empty exactly when the deque is empty or the query starts after the newest packet's start |
| DequeQuery.AnswerIsFromTo | src/streamDeque.cpp:205-271 | on any sorted deque what an answer is, by its packets alone and uniquely: it begins with the first packet that starts at or after the query or with the one before if that still runs between their starts, goes on with packets that start in the range, and ends with the first that reaches the end of the range, before the first that starts after it, or with the newest packet |
| DequeQuery.LeftOutOnlyBehindTheEnd | src/streamDeque.cpp:262-267 | a packet that starts in the range is returned, or lies behind a returned one that reaches the end of the range |
| Witnesses.BailsAtTheSecond | src/streamDeque.cpp:262-267 | three packets of which the second reaches the end of the range: the first two are returned |
| Witnesses.BothAtHundredHertz | src/streamDeque.cpp:205-271 | two packets of ten samples at 100 Hz, the second 100 milliseconds after the first, and a query from 50 to 120 milliseconds that finds both |
| DequeQuery.AnswerOnSortedDeque | src/streamDeque.cpp:205-271 | on any sorted deque: what lies before the answer starts before the range, what follows its first packet starts in the range, every returned packet has data at or after the start of the range, and a packet starting in the range that is left out lies after a returned packet that reaches the end of the range |
| DequeQuery.BoundsAreOrdered | src/streamDeque.cpp:233-255 | the second bound is never before the first; they meet exactly when the first packet starts after the range |
| DequeQuery.EarlyExitIff | src/streamDeque.cpp:256-270 | as many packets are copied as planned exactly when no packet before the last planned one reaches the end of the range |
| DequeQuery.NoEarlyExitWhenGapped | src/streamDeque.cpp:262-270 | on gapped deques the early exit never shortens the copy |
| Witnesses.EarlyExitLosesAPacket | src/streamDeque.cpp:262-270 | two overlapping packets, added to an empty deque, of which the answer lacks one |
| Witnesses.InsideTheNewestPacket | src/streamDeque.cpp:218-218 | a query inside the only packet finds nothing |
| Witnesses.InsideAGap | src/streamDeque.cpp:228-249 | a query between two packets finds the second, which does not overlap it |
| Witnesses.APointIsStoredTwice | src/streamDeque.cpp:78-93 | two packets of one sample at one time are both stored, and a deque with room for one loses the first payload |
| DequeQuery.AnswerIsExact | src/streamDeque.cpp:205-272 | on gapped deques an answer is the overlapping packets in order, or the single next packet when none overlaps |
| DequeQuery.ExactIff | src/streamDeque.cpp:205-272 | when exactly the answer is the overlapping packets, on every sorted deque, by the first packet that starts at or after the query: it starts in the range or the one before still runs, none before these still runs, and of the packets that start by the end of the range only the last may reach it |
| DequeQuery.ExactByBounds | src/streamDeque.cpp:205-272 | the same by the bounds of the answer: it begins in time, nothing before it still runs, nothing after it starts in the range |
| DequeQuery.LowIs | src/streamDeque.cpp:209-227 | where an answer begins, by the first packet that starts at or after the query and the one before it |
| DequeQuery.ExactIffWhenGapped | src/streamDeque.cpp:205-272 | on gapped deques: exactly when some packet overlaps or the query starts after the end of the data, in terms of the query alone |
| DequeQuery.RunStaysWithin | src/streamDeque.cpp:52-186 | a run retains only packets that were offered |
| DequeQuery.EveryRunAnswersExactly | src/streamDeque.cpp:52-272 | after any run of additions and expiries over disjoint intervals of positive length, repeats of an interval with the same or another payload included, every query not later than the newest packet is exact and no debug assertion fails |
| StreamDequeMaps.StreamDequeMap.constructor | src/streamDequeMap.cpp:34-50 | a new collection has no streams |
| StreamDequeMaps.StreamDequeMap.AddPacket | src/streamDequeMap.cpp:52-82 | exactly which packets are accepted, whatever the build, so the identifier check of the debug build never fires; the deque of the key gets the packet, every other stream and the key set of a rejected packet stay |
| StreamDequeMaps.StreamDequeMap.RemoveExpiredPackets | src/streamDequeMap.cpp:84-98 | every stream is expired, and the result is the total removed as far as it fits into 32 bits |
| Messages.TruncatedWraps | src/streamDequeMap.cpp:93-94 | a sum in 32 bits is the sum but for multiples of 4294967296 |
| StreamDequeMaps.StreamDequeMap.GetPackets | src/streamDequeMap.cpp:195-223 | which requests are rejected; otherwise the answer of the stream of the key, nothing for an unknown key |
| StreamDequeMaps.StreamDequeMap.GetAvailableStreams | src/streamDequeMap.cpp:118-150 | it succeeds exactly when every key parses, and lists the parsed keys in key order, each once |
| StreamDequeMaps.StreamDequeMap.AddToStream | src/streamDequeMap.cpp:58-62 | a known stream takes or rejects the packet, and no other stream changes |
| StreamDequeMaps.StreamDequeMap.AddStream | src/streamDequeMap.cpp:65-77 | a new key gets a deque with the packet, or nothing changes |
| StreamDequeMaps.StreamDequeMap.VisitAll | src/streamDequeMap.cpp:91-95 | the loop expires stream after stream and adds up what each lost, in 32 bits |
| StreamDequeMaps.StreamDequeMap.ExpireOne | src/streamDequeMap.cpp:93-94 | expiring one stream changes that stream only |
| StreamDequeMaps.StreamDequeMap.StateIsValid | src/streamDequeMap.cpp:155-159 | the contents of every stream of a valid collection satisfy the invariant of a deque |
| StreamDequeMaps.ParseAll | src/streamDequeMap.cpp:138-149 | the list is built completely or the first key that does not parse ends it |
| KeyOrder.InOrder | src/streamDequeMap.cpp:155-159 | the keys of the map are visited each exactly once |
| KeyOrder.InOrderAscends | src/streamDequeMap.cpp:155-159 | and in ascending order |
| KeyOrder.LessIffDiffers | src/streamDequeMap.cpp:155-159 | ascending means: at the first difference the earlier key has ended or has the smaller character |
| MapModel.ExpiryConserves | src/streamDequeMap.cpp:84-98 | what an expiry removes over all streams is what the collection loses, keys stay, and expiries compose |
| MapModel.VisitingExpiresAll | src/streamDequeMap.cpp:91-95 | visiting stream after stream expires each of them once |
| MapModel.RunDecomposes | src/streamDequeMap.cpp:52-98 | in any run each deque is a stand-alone deque fed the accepted packets of its key and the expiries; a key exists exactly when an accepted packet had it |
| MapModel.StreamsHoldTheirNewest | src/streamDequeOptions.cpp:13-13 | without expiries each stream of the collection holds the newest 2147483647 of what its packets would leave in a deque without a bound |
| MapModel.StreamsDoNotInterfere | src/streamDequeMap.cpp:52-116 | runs that agree on one stream answer every query on it alike, whatever else was offered |
| MapModel.EveryStreamAnswersExactly | src/streamDequeMap.cpp:52-116 | exact answers for every stream with disjoint intervals, repeated or not, inside any run of the collection |
| MapModel.ListingSucceedsIff | src/streamDequeMap.cpp:118-150 | listing succeeds exactly when no accepted packet had a dot in its identifier |
| MapModel.ListedStreamsAreTheStreams | src/streamDequeMap.cpp:118-150 | with clean identifiers each key lists as the converted identifier of its packets, prints back to the key, and no two keys list alike |
| MapModel.UsablePacketsAreAccepted | src/utilities.cpp:481-522 | a packet that passes the import check is accepted exactly when it has a start time and a type the cache holds |
| MapModel.AcceptedIff | src/streamDeque.cpp:313-345 | which packets the collection takes, field by field, through printing, the checks of the deque, conversion and the times |
| Identifiers.ToString | src/utilities.cpp:199-265 | erasing white space from the joined text gives the joined canonical fields; each failure with its message |
| Identifiers.Convert | src/utilities.cpp:325-397 | each field becomes canonical, a blank or missing location becomes two dashes; each failure with its message |
| Identifiers.FromString | src/utilities.cpp:267-290 | three or four parts are taken, anything else is rejected |
| Text.EraseSpaces | src/utilities.cpp:260-262 | what is left is the text without its white space, in order |
| Text.TransformToUpper | src/utilities.cpp:263-263 | the loop over the characters gives the upper-case text |
| Text.CanonIsTheTidyForm | src/utilities.cpp:260-263 | the canonical form of a field is the one text without white space and lower case that differs from it in white space and case only |
| Text.SameCanonIffAlike | src/utilities.cpp:260-263 | two fields have one canonical form exactly when they differ in white space and case only |
| Identifiers.ConvertField | src/utilities.cpp:330-343 | a field becomes canonical, or is reported as not set or blank |
| Text.SplitOfJoined | src/utilities.cpp:270-272 | four joined fields split into themselves when none holds a dot, and into more than four parts otherwise |
| Text.JoinedIsWhole | src/utilities.cpp:270-272 | splitting any text at dots loses nothing: its pieces joined with dots are the text |
| Identifiers.ParsedIff | src/utilities.cpp:267-290 | a key parses to four fields exactly when they hold no dot and the key is the four joined, or the first three joined and the fourth two dashes |
| Identifiers.KeysAreTidy | src/utilities.cpp:199-397 | which identifiers print and which convert; no key and no converted field holds white space or a lower-case letter |
| Identifiers.SameKeyIffAlike | src/utilities.cpp:199-265 | two clean identifiers share a key exactly when they differ in case and white space only |
| Identifiers.SameConvertedIffAlike | src/utilities.cpp:325-397 | two identifiers convert alike exactly when they differ in case and white space only, a blank location counting as two dashes |
| Identifiers.AlikeShareKey | src/utilities.cpp:199-265 | identifiers that differ in case and white space only share a key, with dots too |
| Identifiers.TidyIsUnchanged | src/utilities.cpp:199-397 | fields without white space and lower case are printed and converted as they are, an empty location as two dashes |
| Identifiers.FirstMissingIsReported | src/utilities.cpp:203-241 | printing reports the first of network, station and channel that is not set or empty |
| Identifiers.FirstBlankIsReported | src/utilities.cpp:330-376 | conversion reports the first of them that is not set or blank |
| Witnesses.KeyOfMixedCase | src/utilities.cpp:199-397 | an identifier with lower case, a blank inside a field and no location, its key and its converted form |
| Identifiers.RoundTripIffClean | src/utilities.cpp:199-397 | parsing the printed key gives the converted identifier exactly for named fields without dots and a location that is not merely blank |
| Identifiers.PrintedKeyParses | src/utilities.cpp:199-290 | a printed key parses exactly when no field holds a dot |
| Identifiers.ConversionKeepsKey | src/utilities.cpp:199-397 | converting first leaves the key as it was exactly when the location is not merely blank |
| Identifiers.KeysSeparateStreams | src/utilities.cpp:199-397 | two clean identifiers share a key exactly when their converted forms are equal |
| Identifiers.ParsedPrintsBackIffClean | src/utilities.cpp:199-290 | what a key parses to prints back to the key exactly when the key came from a clean identifier |
| Identifiers.DottedKeysClash | src/utilities.cpp:199-290 | moving a dot between two fields gives streams with different converted forms and one key, which does not parse |
| PacketConversion.ConvertPacket | src/utilities.cpp:400-471 | exactly which packets convert, and every field kept |
| PacketConversion.ConversionRoundTrips | src/utilities.cpp:400-471 | the stored packet and the identifier give the import packet back, an unset type read as unknown and unset data as no bytes |
| PacketConversion.RestoringRoundTrips | src/utilities.cpp:400-471 | every cache packet with a positive rate is the stored form of an import packet |
| PacketConversion.IsValid | src/utilities.cpp:481-522 | exactly which packets pass; a reason is written only on failure and names the stream |
| PacketTimes.EndIsWithinHalfANanosecond | src/utilities.cpp:90-107 | the end is the exact end to the nearest nanosecond, halves up, and never before the start |
| PacketTimes.EndBySamplesAndRate | src/utilities.cpp:60-107 | seconds and nanoseconds can be read off the start; the end exists exactly with a sample and a positive rate, and is the start plus samples less one over the rate, to the nearest nanosecond, written without division |
| PacketTimes.EndIsMonotone | src/utilities.cpp:90-107 | more samples or a lower rate never end earlier |
| PacketTimes.MicrosecondEndLosesAtMostOne | src/utilities.cpp:70-107 | the microsecond end is the whole microseconds of the nanosecond end, or one less, and exactly when |
| PacketTimes.PositiveLength | src/utilities.cpp:90-107 | when exactly a packet has positive length, by its samples and rate; two samples at up to two a nanosecond suffice |
| PacketTimes.NextPacketStartsLater | src/utilities.cpp:90-107 | at up to one sample a nanosecond a packet ends before the next sample is due |
| ContinuousData.ContinuousDataIsDisjoint | src/utilities.cpp:90-107 | continuous data at such a rate is a family of disjoint packets of positive length |
| ContinuousData.ContinuousStreamAnswersExactly | src/streamDequeMap.cpp:52-116 | a continuous stream, in any order of arrival, with intervals sent again under any payload, among any other traffic and expiries, answers exactly |
| ImportQueue.Importer.AddPacket | src/main.cpp:241-271 | whatever the consumer does in between, the queue stays that of a reachable state of the machine and ends as a suffix of itself (all of it, less the dropped packet, if the consumer does nothing) with the new packet behind; the producer removes nothing but the counted packet, which is the oldest then; one is reported exactly when the queue is full at the first check, and the reported number is the dropped number exactly when the consumer does not forestall the producer after that check |
| ImportQueue.Importer.EnsureSpace | src/main.cpp:243-263 | the size checks and the loop end with room for one packet; exactly when one is reported, when one is dropped and which, and how many packets are left |
| ImportQueue.Importer.MakeRoom | src/main.cpp:249-259 | the loop ends, with room in the queue, and has dropped just the oldest packet unless the consumer removed one before the second size check or emptied the queue after it |
| ImportQueue.Importer.DropOne | src/main.cpp:249-258 | exactly when a round leaves the loop; otherwise it drops the oldest packet alone and comes closer to leaving it |
| ImportQueue.Importer.CheckSize | src/main.cpp:249-250 | a size check after the consumer took some packets |
| ImportQueue.Importer.TakeOut | src/main.cpp:253-257 | an attempt to pop takes the oldest packet, or finds the queue emptied |
| ImportQueue.Importer.Enqueue | src/main.cpp:266-270 | with the space ensured the packet goes to the end and putting it does not fail |
| ImportQueue.Importer.Meanwhile | src/main.cpp:324-327 | the consumer takes the oldest packets, as many as there are and it asks for |
| ImportQueue.NextKeepsInvariant | src/main.cpp:241-327 | what every atomic access of either side keeps |
| ImportQueue.EveryInterleaving | src/main.cpp:241-327 | under every interleaving nothing offered in a finished call is lost on the way in, at most one packet is dropped for each one offered, the queue is a suffix of what was put in, the consumer sees production order, and put in = taken + dropped + queued |
| ImportQueue.NextTakes | src/main.cpp:241-327 | which accesses take packets out: the pop of either side, and each takes the oldest packet alone |
| ImportQueue.CallDropsAtMostOne | src/main.cpp:241-271 | during a call the producer drops as many packets as it counts, at most one, however the accesses interleave |
| ImportQueue.CallEndsWithinFiveAccesses | src/main.cpp:241-271 | a call is over after at most five accesses to the queue |
| Subscriber.Judge | src/subscriber.cpp:376-416 | which endings of a call go on, which stop and which fail |
| Subscriber.AcquirePackets | src/subscriber.cpp:302-425 | for every run that ends: waits follow the schedule from the last delivering attempt, indices are in range, and attempt i is made only if read 2 i plus the number of earlier attempts that ended well or were cancelled finds the flag set; how many reads are made; it is left as stopped exactly when the last read finds the flag cleared, as failed exactly after an attempt with any other error, else with the schedule used up; and it ends in the exception exactly when the next read finds the flag set |
| Subscriber.BeginRound | src/subscriber.cpp:309-326 | the flag is read, and read again after the wait; a cleared flag ends the loop, else the attempt is permitted |
| Subscriber.MakeAttempt | src/subscriber.cpp:376-416 | an attempt resets the counter when it delivered a packet, and its end continues the loop or leaves it |
| Subscriber.IndexStaysInRange | src/subscriber.cpp:307-345 | in every run, endless ones included, the index into the schedule is in range whenever the loop goes on |
| Subscriber.EndlessIff | src/subscriber.cpp:302-425 | the loop never ends exactly when the flag stays set, no attempt fails otherwise and, from the length of the schedule on, every so many consecutive attempts contain one that delivers |
| Subscriber.SilenceEndsTheLoop | src/subscriber.cpp:307-376 | it ends within one schedule of the last delivering attempt |
| Subscriber.UsedUpMeansWholeSchedule | src/subscriber.cpp:307-376 | a run that used up the schedule made exactly as many attempts after the last delivering one as there are waits, and waited through the schedule in order |
| Subscriber.BaseIsLast | src/subscriber.cpp:376-376 | the attempt from which the schedule counts is the last that delivered a packet, or the first |

## Left out

- The service with its request handling and the multi-stream request, whose list of requests is never filled: no complete behaviour to model.
- TLS, tokens, signals, threads, logging, metrics, configuration and option classes: foreign libraries or one-line guards; capacities of at least one and nonnegative waits are taken as given.
- The consumer loop around the queue: only its removal from the queue is modelled, not the latency check, the future check (which compares the start time under the name of the end time) and the counters.
- The reactor of the subscriber and the creation of channels: an attempt is its outcome; an exception during it is not modelled.
- Restarting a stopped subscriber: the stop flag, once cleared, stays cleared.
- Rounding of doubles, NaN rates, overflow of 64-bit times, other locales.
- The messages of exceptions, except those of the identifier codec: which inputs fail is modelled, the text is not.
- Timestamps whose nanosecond part is outside its documented range.
- The branch of the collection that reports a failed insertion: the lookup under the same lock excludes it.
- ImportQueue.Importer.AddPacket: the interference of the consumer is a number of removals before each access, so a consumer that is itself between two accesses is not a state; its accesses are single removals.
- Subscriber.AcquirePackets: a wait is the requested duration, although a shutdown can end it early; the method speaks of the runs that end, and endless ones, which `EndlessIff` describes, have only `IndexStaysInRange`.
- Waiting and time in general: the update time is whatever the clock says, and no order of clock values is assumed.
