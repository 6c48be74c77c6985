# Verification of air3

air3 holds a public HTTP request open at an edge gateway while a private connector streams the object back to it.
This project models the state machines and codecs between those two ends in Dafny and proves what every
interleaving of their steps keeps and what their printers and parsers promise each other. `dafny verify dfyconfig.toml`
checks everything.

## How the model is built

- A protocol that the program guards with locks is a step relation: one atomic step is one lock region, one channel
  operation or one effect on the outside. Everything that a scheduler, a clock, a network or a caller decides is a
  label of the step, so a run is a sequence of steps and the next state is a function of the step. Theorems are about
  every run from the initial state, or about every state that satisfies an invariant kept by every step.
- Beside each protocol stand its objects: classes with the source's fields, whose methods are proved to do exactly what
  the protocol's own functions say, and lemmas that an undisturbed call of the object is a run of the step relation.
- What an operation comes to is stated a second time without the functions that compute it: by ids, tokens, deadlines and
  errors for calls, by code points and by the text itself for codecs and parsers, and by runs that reach the good answer
  for protocols (the modules with Outcomes in their names, DeliverySuccess, HeaderTexts, QueryPairs, PathParsing).
- Codecs and string algorithms are functions on octet sequences with their laws, and the source's loops are methods
  proved equal to those functions.

| part | files |
|---|---|
| octets, text and names | Octets, Strings, Runes, CodePoints, Decimals, Names |
| held requests: `pending.Registry`, `IngestStream`, `responseSink` | HeldRequests, HeldInvariants, HeldTheorems, HeldReuse, HeldProgress, HeldCalls, HeldOutcomes, Requests, PendingRegistry |
| delivery from `Send` to the public response | Delivery, DeliveryProofs, DeliveryTheorems, DeliveryRun, DeliverySuccess, DeliveryTruncation, IngestTcp |
| ingest frame | MessagePack, Frames, FrameProofs, HeaderTexts, FrameCodec |
| upload sources | UploadSources, UploadInvariants, UploadTheorems, UploadOutcomes, UploadRegistry |
| connector worker pool | WorkerPool, WorkerPoolTheorems, WorkerPoolOutcomes, TicketWorkerPool |
| aws-chunked reader | AwsChunked |
| canonical query, URI encoding, signed headers | UriEncoding, CanonicalQuery, QueryPairs, SignedHeaders |
| paths, signed text, subjects | PublicPath, SignedPath, PathParsing, SignedText, Subjects |
| smux and QUIC session slots | SessionSlots, SessionTheorems, SessionProgress, SessionSender, SessionOutcomes |

## Where an obvious claim is false

- `IngestStream.CloseWithError` removes by id (internal/pending/registry.go:201), so it can take a later request with the
  same id out of the map. `HeldReuse.RegisterIsSafeExactlyWhenIdFree` gives the exact condition for registering an id:
  no earlier request with it has a stream that is still open. The comment at internal/pending/registry.go:98-99 asks
  for less (unique until cancelled); `HeldReuse.CancelledIdIsNotFree` is a run in which that is not enough.
- Nil from `Wait` does not mean that the whole body was delivered. A client that fails in the middle of a body of unknown
  length has its connection closed (internal/ingesttcp/client.go:31), which sends the same end of stream as its
  `CloseWrite`, and the server takes that for the end of the body (internal/ingesttcp/server.go:131-136).
  `DeliveryTruncation.FailedClientReleasesWithNil` is such a run for every body and every prefix of it, and
  `DeliveryTruncation.NilMeansWholeExactlyWhenDeclared` the exact condition: the length is declared, or the body is empty.
  The smux and QUIC clients close their stream in the same way (internal/ingestsmux/client.go:115, internal/ingestquic/client.go:112).
- The context watcher of an upload source cancels by id (internal/uploadsource/registry.go:246), so it can cancel a later
  source. `UploadTheorems.ContextCanCancelAnother` is such a run, and
  `UploadTheorems.RegisterIsSafeExactlyWhenUnwatched` gives the exact condition for registering an id: no watcher of an
  earlier source with it is still waiting.
- A truncated aws-chunked stream of exactly the declared length may end cleanly (internal/s3api/awschunked.go:64).
  `AwsChunked.TruncationPassesExactlyWhenLate` says for every run when it does.
- The nil of a second smux `Close` comes before the sessions are closed (internal/ingestsmux/client.go:129-131):
  `SessionTheorems.CloseIsReliableExactlyWhen` says exactly when the return of a Close means that nothing is open: a QUIC
  sender, an open sender, or one whose slots an earlier Close has all passed over.
  `SessionTheorems.SecondCloseMayReturnEarly` is a run in which it does not.
- The signed text of a public URL is injective only without newlines in the range and the response content type:
  `SignedText.CollidesExactlyWithNewlines`.
- Printing a path drops empty key segments, so the path round trip holds exactly for keys without them:
  `PublicPath.PathRoundTrip`.
- Appending a signature to an empty presigned query does change the canonical query, because of the separator:
  `CanonicalQuery.SignatureIsLeftOutExactlyWhen`, `CanonicalQuery.SignatureAlone`.
- An expiry of more than 63 bits may wrap around instead of being refused (internal/signing/hmac.go:368):
  `SignedText.ParseUnixSeconds` says of every text whether it is read as its value, as another number, or refused.

## Model

| member | source | states |
|---|---|---|
| HeldInvariants.StepKeepsInv | internal/pending/registry.go:100-286 | Every lock region of Register, StartIngest, Write, CloseWithError, Cancel, Expire and of the sink keeps the invariant: mapped entries have no error, a mapped and claimed entry has a stream outside the lock, an entry out of the map has a completed sink or is owed its Cancel, one close at a time per stream |
| HeldTheorems.RunKeepsInv | internal/pending/registry.go:100-286 | The invariant over whole runs, with and without the assumption that ids are not reused under an open stream |
| HeldTheorems.NoRequestIsLost | internal/pending/registry.go:120-265 | In every run that reuses no id under an open stream, each request is in the map, completed, or owed a Cancel by a running call; mapped requests have no error, and outside the lock a stream exactly when claimed |
| HeldTheorems.QuietMeansAnsweredOrWaiting | internal/pending/registry.go:120-265 | When all calls have returned, a request out of the map has had its waiter released, once |
| HeldTheorems.StartedAndClosedAtMostOnce | cmd/edge-gateway/response_sink.go:33-95 | In every run, with any reuse of ids, Start runs at most once per target and done is closed once exactly when the sink is completed |
| HeldTheorems.FirstCompletionWins | cmd/edge-gateway/response_sink.go:85-95 | Once a sink is completed its error never changes and done is not closed again, in any continuation |
| HeldTheorems.LateWriteHandsNothing | internal/pending/registry.go:162-187 | A Write that begins after its stream was cancelled or closed, or its sink completed, hands no octet to the response writer in any continuation, and fails |
| HeldReuse.RegisterIsSafeExactlyWhenIdFree | internal/pending/registry.go:193-204 | Registering an id can never lead to the loss of the new request if and only if no earlier request with that id has an open stream |
| HeldReuse.LostForever | internal/pending/registry.go:261-265 | A request that is out of the map, uncompleted, unowed and without a stream stays so in every continuation |
| HeldReuse.CancelledIdIsNotFree | internal/pending/registry.go:98-99 | A run after which the id is out of the map and its Cancel has returned, and still is not free to be registered |
| HeldReuse.DebtsCanBePaid | internal/pending/registry.go:216-258 | A call that owes cancellations is never blocked: its own two steps per request complete every target it has listed |
| HeldProgress.SomeoneMoves | internal/pending/registry.go:129-160 | No deadlock: while any call is running some call can go on; the StartIngest that holds the registry lock is never blocked |
| HeldProgress.WorkGoesDown | internal/pending/registry.go:120-258 | Every step of a running call lowers the total work of the running calls |
| HeldProgress.EveryCallReturns | internal/pending/registry.go:120-258 | From every reachable state, whatever ids were reused, the running calls alone can return in at most TotalWork steps |
| HeldProgress.EveryDebtIsPaid | internal/pending/registry.go:120-258 | From every state reached without reusing an id under an open stream they do so, and then every request out of the map has had its waiter released, once |
| HeldCalls.StartIsARun | internal/pending/registry.go:120-160 | An undisturbed StartIngest, with target.Start under the registry lock, is a run of the lock regions |
| HeldCalls.CancelIsARun | internal/pending/registry.go:208-230 | An undisturbed Cancel, delete then poison then tell, is a run |
| HeldCalls.CloseIsARun | internal/pending/registry.go:193-204 | An undisturbed CloseWithError, mark then finish then remove by id, is a run |
| HeldCalls.ExpireIsARun | internal/pending/registry.go:234-259 | An undisturbed Expire is a run that tells each expired request in the order listed |
| HeldCalls.WriteIsARun | internal/pending/registry.go:162-187 | An undisturbed Write through the GET or HEAD writer is a run, with the count and error it answers |
| HeldCalls.SweepRound | internal/pending/registry.go:241-250 | One round of Expire's deleting loop: what leaves the map is marked and joins the list |
| HeldCalls.SweepEnd | internal/pending/registry.go:241-250 | The finished loop has taken out exactly the expired entries, each once |
| HeldOutcomes.ExpiredIsNeverStarted | internal/pending/registry.go:129-137 | In every run a StartIngest for a mapped request whose deadline is not after now takes the id out of the map, attaches no stream, and in every continuation ends in ErrExpired with the target completed |
| HeldOutcomes.StartExactlyWhen | internal/pending/registry.go:120-160 | StartIngest returns a stream exactly when the id is mapped, no error is recorded, the deadline is after now, the request is unclaimed, the token is equal, and the target's context is live and its sink uncompleted; each other case has its error and its effect on map and target |
| HeldOutcomes.PoisonedWriteFails | internal/pending/registry.go:178-187 | A Write whose stream is cancelled while it runs cannot succeed, in any continuation |
| HeldOutcomes.ClosedIsUnmapped | internal/pending/registry.go:193-204 | In every run, whatever ids are reused, a stream whose close has finished has its request out of the map and its waiter released |
| HeldOutcomes.CancelOutcome | internal/pending/registry.go:208-230 | Cancel answers whether the id was mapped; then exactly that id is gone, its entry and stream carry the given error or ErrCanceled, its target is completed with it unless it was completed before, and nothing else changes |
| HeldOutcomes.ExpireOutcome | internal/pending/registry.go:234-259 | After Expire exactly the ids whose deadline is after now are mapped; every other one has been marked, poisoned and told ErrExpired, and nothing else changes |
| HeldOutcomes.CloseOutcome | internal/pending/registry.go:193-204 | CloseWithError acts once: stream done, id gone, target completed with the given error unless it was completed before, and that is what it answers |
| HeldOutcomes.WriteOutcome | cmd/edge-gateway/response_sink.go:104-194 | A Write succeeds exactly on an open, uncancelled stream to a live, uncompleted target whose writer does not fail; what it counts has been handed over, and for HEAD all is counted and nothing handed over |
| Requests.AcceptedExactlyWhen | internal/pending/registry.go:288-330 | A request is accepted exactly when its names are safe, its deadline is to come, and it reads an object, lists, or changes something, each with the method and the fields that go with it |
| Requests.RangeIs | internal/tickets/ticket.go:616-633 | A byte range is exactly bytes=from-to with digits and one bound at least, and if both are there in order and with 63 bits |
| PendingRegistry.ResponseSink.Start | cmd/edge-gateway/response_sink.go:33-54 | Start on the object is the protocol's Start: context, completion, started |
| PendingRegistry.ResponseSink.Complete | cmd/edge-gateway/response_sink.go:85-95 | complete on the object: the first completion wins and closes done |
| PendingRegistry.ResponseSink.Write | cmd/edge-gateway/response_sink.go:104-194 | write and discard on the object: what is handed over, the count and the error |
| PendingRegistry.IngestStream.Write | internal/pending/registry.go:162-187 | Write on the object changes the store as the protocol's write does |
| PendingRegistry.IngestStream.CloseWithError | internal/pending/registry.go:193-204 | CloseWithError on the object: once, the target finished, the map entry of that id removed whoever it belongs to |
| PendingRegistry.Registry.Register | internal/pending/registry.go:100-115 | Register on the object: the target and validateRequest in the order of their checks, with ResolveOperation and the checks on key, range and list, and exactly one new entry |
| PendingRegistry.Registry.StartIngest | internal/pending/registry.go:120-160 | StartIngest on the object: each refusal, and a stream exactly for a mapped, unexpired, unclaimed request with that token and a live, uncompleted target |
| PendingRegistry.Registry.Cancel | internal/pending/registry.go:208-230 | Cancel on the object: the new store and whether the id was known |
| PendingRegistry.Registry.Sweep | internal/pending/registry.go:241-250 | The locked loop of Expire on the object: the map, the errors and the list |
| PendingRegistry.Registry.NotifyEach | internal/pending/registry.go:252-257 | The unlocked loop of Expire on the object |
| PendingRegistry.Registry.Expire | internal/pending/registry.go:234-259 | Expire on the object: all expired entries out of the map and told, and their number |
| PendingRegistry.Entry.CurrentError | internal/pending/registry.go:278-286 | currentError on the object: the recorded error, else ErrExpired exactly if the deadline is not after now |
| DeliveryProofs.MoveKeepsInv | internal/ingesttcp/server.go:106-127 | Every move of a client, of its connection when it is closed, of the channel, a server connection or anyone else in the registry keeps the link between what was sent, what is on the wire and what was handed over |
| DeliveryTheorems.SendNilMeansDelivered | internal/ingesttcp/client.go:36-116 | In every interleaving with Cancel, Expire and other connections, a Send that returned nil had its target finished with nil and exactly the first L octets of its body (all of it when L is unknown) handed to the response writer, in order, each once; none for HEAD |
| DeliverySuccess.SendCanReturnNil | internal/ingesttcp/client.go:36-116 | For every header the server accepts, every body that is long enough, GET or HEAD, and every deadline after now: a run in which the request is registered and Send returns nil, its waiter released with nil on exactly the declared body |
| DeliverySuccess.SendWritesTheDeclared | internal/ingesttcp/client.go:68-91 | What the copying Send writes is what the client of the step relation puts on the wire: the frame and as much of the body as was declared |
| DeliveryTheorems.WaitNilMeansDelivered | internal/ingesttcp/server.go:106-148 | A target whose waiter is released with nil was closed by exactly one connection, and what was handed over is exactly what that connection's client had sent; for a declared length that is the whole declared body |
| DeliveryTheorems.MoveKeepsNilIsEarned | internal/ingesttcp/server.go:115-122 | Every move keeps it so that a sink is completed with nil only by a connection that has reached its close without an error |
| DeliveryTruncation.FailedClientReleasesWithNil | internal/ingesttcp/client.go:23-34 | For every acceptable header of unknown length, every body and every n short of it, a run in which the client sends n octets and fails, its connection is closed, and the waiter is released with nil on those n octets |
| DeliveryTruncation.NilMeansWholeExactlyWhenDeclared | internal/ingesttcp/server.go:129-148 | For every header that the server accepts and every body: in every run nil from Wait means the whole declared body, if and only if the length is not -1 or the body is empty |
| IngestTcp.CopyBody | internal/ingesttcp/server.go:129-148 | copyBody: nothing beyond the limit is read, a prefix is written, and nil means exactly the declared number, or everything for an unknown length; which of the two errors comes is decided |
| IngestTcp.ReadAck | internal/ingesttcp/client.go:93-116 | readAck is nil exactly for an unfinished context and a success octet |
| IngestTcp.Send | internal/ingesttcp/client.go:36-91 | What goes out is always a beginning of the frame and the declared body; nil means the frame and the whole body, or its first bodyLength octets; Send answers nil exactly when all of it went out, the write side of a body of unknown length was closed, and the success octet came before the context ended |
| IngestTcp.CopyClientBody | internal/ingesttcp/client.go:68-91 | copyClientBody behind the frame: a beginning of the declared body, nil exactly when it went out whole and the write side that an unknown length needs was closed |
| MessagePack.IntRoundTrip | internal/ingeststream/frame.go:302-321 | Every int size class that the encoder picks is read back, and what follows is left alone |
| MessagePack.StrRoundTrip | internal/ingeststream/frame.go:287-300 | The same for every str size class |
| MessagePack.MapLenRoundTrip | internal/ingeststream/frame.go:115-117 | The same for map headers |
| MessagePack.BigEndianRoundTrip | internal/ingeststream/frame.go:53-55 | The big-endian length is read back |
| CodePoints.TrimSpaceIs | internal/ingest/metadata.go:52 | Trimming takes away white-space code points around the text and only those, and leaves none at either end |
| CodePoints.PointOfRune | internal/s3api/sigv4.go:652-662 | What ranging over a string takes for a rune is the UTF-8 of one scalar value |
| CodePoints.RuneOfPoint | internal/s3api/sigv4.go:652-662 | And the UTF-8 of every scalar value is taken for a rune |
| Runes.TrimSpaceIdempotent | internal/ingest/metadata.go:52 | Trimming Unicode white space twice is trimming it once |
| Frames.ValidateFieldIdempotent | internal/ingest/metadata.go:48-57 | Validation of a metadata text is a normal form |
| Frames.ValidateHeaderIdempotent | internal/ingeststream/frame.go:97-113 | Validation of a header is a normal form |
| HeaderTexts.FieldIsKept | internal/ingest/metadata.go:48-57 | A metadata text is kept exactly if it is on one line and at most 8192 octets without the white space around it, and it is kept as that |
| HeaderTexts.HeaderIsAcceptedAs | internal/ingeststream/frame.go:97-113 | Exactly which headers are accepted, and as what: identifier, token, length and status as they are, every metadata text without the white space around it |
| HeaderTexts.LengthOfNumber | internal/ingest/metadata.go:36-45 | A printed number, with or without a sign, is a content length exactly if it is not negative and has 63 bits |
| HeaderTexts.CleanHeaderReturns | internal/ingeststream/frame.go:36-95 | For every acceptable header without white space around its texts, DecodeHeader of the encoded frame in front of any body gives that very header and leaves that body |
| HeaderTexts.FrameLayout | internal/ingeststream/frame.go:49-63 | Every frame is AI3T, version 1, the payload's length in four octets, and a payload that begins as a map of four |
| HeaderTexts.StrFormat | internal/ingeststream/frame.go:287-300 | The code and length octets of a str |
| HeaderTexts.IntFormat | internal/ingeststream/frame.go:302-321 | The code octets of an int |
| FrameProofs.MetadataRoundTrip | internal/ingeststream/frame.go:145-171 | The metadata map is read back whatever follows it |
| FrameProofs.PayloadRoundTrip | internal/ingeststream/frame.go:115-136 | The header map is read back, with nothing left over |
| FrameProofs.UnframeRoundTrip | internal/ingeststream/frame.go:49-63 | The prefix is read back and the limit is applied to exactly the payload's length |
| FrameProofs.FrameRoundTrip | internal/ingeststream/frame.go:36-95 | DecodeHeader on the output of EncodeHeader followed by any body returns the validated header and leaves exactly the body, unless a smaller limit was asked for |
| FrameProofs.HeaderOrderIsFree | internal/ingeststream/frame.go:187-225 | Any reordering and re-encoding of the fields of the header map decodes to the same header or the same rejection |
| FrameProofs.MetadataOrderIsFree | internal/ingeststream/frame.go:227-273 | The same for the metadata map, whatever follows it |
| FrameProofs.PayloadIsFourFields | internal/ingeststream/frame.go:173-225 | A payload is accepted only as a map of exactly the four fields, once each, with nothing behind it, whichever of its forms the library accepts for the map header |
| FrameProofs.FourFieldsDecode | internal/ingeststream/frame.go:173-225 | Every such payload is decoded to the header its fields say, and validated |
| FrameProofs.FieldsCompose | internal/ingeststream/frame.go:195-222 | A sequence of fields decodes to their assignment exactly when no key is repeated |
| FrameProofs.FieldsDecompose | internal/ingeststream/frame.go:195-222 | Whatever the loop accepts is a sequence of well-formed fields with distinct keys |
| FrameCodec.Encoder.Metadata | internal/ingeststream/frame.go:145-171 | encodeMetadata writes exactly the seven fields in order |
| FrameCodec.Encoder.HeaderPayload | internal/ingeststream/frame.go:115-136 | encodeHeaderPayload writes exactly the payload |
| FrameCodec.EncodeHeader | internal/ingeststream/frame.go:36-61 | EncodeHeader writes the frame, nothing for a refused header, and a beginning of the frame when the writer fails |
| FrameCodec.PutHeaderIs | internal/ingeststream/frame.go:207-216 | Assigning fields one by one builds the record of all of them |
| FrameCodec.HasAll | internal/ingeststream/frame.go:219-223 | The loop over the required names |
| FrameCodec.Decoder.MetadataLoop | internal/ingeststream/frame.go:232-271 | The loop of decodeMetadata with its seen set computes the fields the codec functions say |
| FrameCodec.Decoder.Metadata | internal/ingeststream/frame.go:227-273 | decodeMetadata, the value and the position |
| FrameCodec.Decoder.HeaderLoop | internal/ingeststream/frame.go:192-218 | The loop of decodeHeaderMap with its seen set |
| FrameCodec.Decoder.HeaderMap | internal/ingeststream/frame.go:187-225 | decodeHeaderMap, the value and the position |
| FrameCodec.DecodeHeaderPayload | internal/ingeststream/frame.go:173-185 | decodeHeaderPayload, including the refusal of anything trailing |
| FrameCodec.Source.ReadFull | internal/ingeststream/frame.go:72 | io.ReadFull over reads of any size |
| FrameCodec.DecodeHeader | internal/ingeststream/frame.go:66-95 | DecodeHeader on a connection with reads of any size is the decoder function, and leaves everything after the announced payload unread even when the header is refused |
| UploadInvariants.StepKeepsInv | internal/uploadsource/registry.go:113-273 | Every lock region and every effect of terminate keeps the invariant, whatever ids are reused |
| UploadTheorems.EverythingAtMostOnce | internal/uploadsource/registry.go:141-273 | In every run each source is claimed at most once, its done channel and body are closed at most once, and at most one Cancel answers true for it |
| UploadTheorems.NoSourceIsLost | internal/uploadsource/registry.go:150-210 | A source out of the map is terminated or owed termination by a running call |
| UploadTheorems.QuietMeansOpenOrClosed | internal/uploadsource/registry.go:141-273 | When all calls have returned, a source is in the map and untouched, or out of it with body and done closed exactly once |
| UploadTheorems.FirstTerminationWins | internal/uploadsource/registry.go:251-256 | The terminal error is that of the first terminator, for good |
| UploadTheorems.SomeoneMoves | internal/uploadsource/registry.go:253-271 | While a termination is under way some step of it is enabled: waiting for the once never deadlocks |
| UploadTheorems.WorkGoesDown | internal/uploadsource/registry.go:251-273 | Every step of a termination lowers the total work of the running calls |
| UploadTheorems.DebtsCanBePaid | internal/uploadsource/registry.go:194-210 | From every reachable state the running calls can finish, and then every source out of the map is terminated |
| UploadTheorems.RegisterIsSafeExactlyWhenUnwatched | internal/uploadsource/registry.go:113-139 | Registering an id can lead to no careful run in which the context of another source takes the new one out of the map, if and only if no watcher of an earlier source with that id is still waiting |
| UploadTheorems.ContextCancelsItsOwnSource | internal/uploadsource/registry.go:243-249 | In runs that respect this, a context only ever cancels its own source |
| UploadTheorems.ContextCanCancelAnother | internal/uploadsource/registry.go:243-249 | A run in which the context of one source cancels another |
| UploadOutcomes.ExpiredIsNeverClaimed | internal/uploadsource/registry.go:141-176 | In every run a Claim for a mapped source whose deadline is not after now takes the id out of the map, never counts as a claim, and in every continuation ends in ErrExpired |
| UploadOutcomes.ClaimExactlyWhen | internal/uploadsource/registry.go:141-176 | Claim succeeds exactly when the id is mapped, the deadline is after now, nobody has claimed it and the token is equal; each other case has its error, and an expired source is terminated |
| UploadOutcomes.CancelOutcome | internal/uploadsource/registry.go:178-192 | Cancel takes exactly that id out and answers true exactly if it is the one that terminates the source, with the given error or ErrCanceled |
| UploadOutcomes.ExpireOutcome | internal/uploadsource/registry.go:194-210 | After Expire exactly the ids whose deadline is after now are mapped, and every other source has been terminated, once |
| UploadOutcomes.OfferIsAcceptedExactlyWhen | internal/uploadsource/registry.go:275-310 | Which sources Register takes before it looks at the context and the map |
| UploadRegistry.TerminationIsARun | internal/uploadsource/registry.go:251-273 | An undisturbed terminate is a run |
| UploadRegistry.CancelIsARun | internal/uploadsource/registry.go:178-192 | An undisturbed Cancel is a run |
| UploadRegistry.ClaimIsARun | internal/uploadsource/registry.go:141-176 | An undisturbed Claim is a run |
| UploadRegistry.CloseIsARun | internal/uploadsource/registry.go:235-241 | An undisturbed close of a claim is a run |
| UploadRegistry.ExpireIsARun | internal/uploadsource/registry.go:194-210 | An undisturbed Expire, with its queue of terminations, is a run |
| UploadRegistry.Registry.Current | internal/uploadsource/registry.go:258 | The identity comparison succeeds exactly when this very source is in the map |
| UploadRegistry.Registry.Register | internal/uploadsource/registry.go:113-139 | Register on the object: validateSource and the context in the order of their checks, and exactly one new entry |
| UploadRegistry.Registry.Terminate | internal/uploadsource/registry.go:251-273 | terminate on the object: once, and only this entry leaves the map |
| UploadRegistry.Registry.Cancel | internal/uploadsource/registry.go:178-192 | Cancel on the object |
| UploadRegistry.Registry.Claim | internal/uploadsource/registry.go:141-176 | Claim on the object: each refusal, and the claimed entry |
| UploadRegistry.Registry.Sweep | internal/uploadsource/registry.go:196-204 | The locked loop of Expire on the object |
| UploadRegistry.Registry.Expire | internal/uploadsource/registry.go:194-210 | Expire on the object: all expired entries out of the map and terminated, and their number |
| WorkerPoolTheorems.StepKeepsInv | cmd/private-connector/main.go:126-204 | Every step of Handle, the workers and the shutdown keeps conservation, the wait group counts and the phases |
| WorkerPoolTheorems.ExactlyOnce | cmd/private-connector/main.go:148-204 | In every run an accepted ticket is queued, in flight or handled, exactly once, any other is nowhere; nothing is sent on the closed channel, nothing is closed twice, no wait group goes negative; at most `workers` tickets are queued and at most `workers` in flight |
| WorkerPoolTheorems.RejectedIsNeverHandled | cmd/private-connector/main.go:152-168 | A ticket whose Handle returned an error is never handled, before or after |
| WorkerPoolTheorems.ActiveKeepsOpen | cmd/private-connector/main.go:157-163 | While a Handle call is active the jobs channel is open |
| WorkerPoolTheorems.NilMeansAllHandled | cmd/private-connector/main.go:171-195 | When CloseAndWait returned nil every accepted ticket has been handled exactly once and no worker, job or Handle call is left |
| WorkerPoolOutcomes.BadAnswersHaveReasons | cmd/private-connector/main.go:151-195 | In every run CloseAndWait answers the context's error only if that waiter's context ended, Handle refuses only if its context ended or the pool was closed, and the pool is closed only by CloseAndWait |
| WorkerPoolOutcomes.GracefulCloseAnswersNil | cmd/private-connector/main.go:171-195 | From every state reached with the pool closed, the pool's own steps and one return for each waiter leave every CloseAndWait that was waiting with nil and every accepted ticket handled once |
| WorkerPoolOutcomes.TicketsGetThrough | cmd/private-connector/main.go:151-169 | From every state reached with the pool open, an arriving ticket can be accepted and handled |
| WorkerPoolTheorems.EveryStepDrains | cmd/private-connector/main.go:175-204 | Once closing, every step of the pool lowers the measure, and arriving calls do not raise it |
| WorkerPoolTheorems.DrainIsBounded | cmd/private-connector/main.go:175-204 | In every run after closing, the pool makes at most `Measure` steps of its own |
| WorkerPoolTheorems.NeverStuck | cmd/private-connector/main.go:181-186 | Once closing, some step of the pool is enabled until done is closed |
| WorkerPoolTheorems.Drains | cmd/private-connector/main.go:181-186 | Every closed pool reaches done by its own steps within the measure |
| TicketWorkerPool.SharedPool.Admit | cmd/private-connector/main.go:152-158 | The first region of Handle on the object, from every state of the pool's invariant |
| TicketWorkerPool.SharedPool.Select | cmd/private-connector/main.go:161-168 | The select of Handle on the object, for whichever ready case is taken; what it sends on is never closed |
| TicketWorkerPool.SharedPool.Work | cmd/private-connector/main.go:197-204 | An undisturbed worker among any others handles what is queued, in order, and stops if the channel is closed |
| TicketWorkerPool.WorkIsARun | cmd/private-connector/main.go:197-204 | Those rounds are a run of the pool |
| TicketWorkerPool.SharedPool.Depart | cmd/private-connector/main.go:159 | The deferred Done of Handle on the object: the wait group never goes below zero |
| TicketWorkerPool.SharedPool.CloseChannel | cmd/private-connector/main.go:181-183 | The shutdown goroutine closes a channel that has not been closed |
| TicketWorkerPool.SharedPool.BeginClose | cmd/private-connector/main.go:175-179 | The once of CloseAndWait on the object |
| TicketWorkerPool.NewTicketWorkerPool | cmd/private-connector/main.go:126-146 | A pool without workers or without a handler is refused |
| AwsChunked.ExactLength | internal/s3api/awschunked.go:29-69 | For every inner reader and every sequence of buffer sizes: what is handed out is a prefix of the data and at most the declared length; once the reader has ended it is all of that; io.EOF means exactly that many octets and no more data; every error is the one the stream deserves |
| AwsChunked.ReadKeepsMidway | internal/s3api/awschunked.go:29-56 | One Read keeps the account of octets handed out, remaining and undecoded |
| AwsChunked.FinishIsAllowed | internal/s3api/awschunked.go:59-69 | finish answers clean exactly for a stream without further data that ends or is cut off |
| AwsChunked.TerminalResultRepeats | internal/s3api/awschunked.go:30-32 | The terminal result repeats with no octets |
| AwsChunked.EnoughReadsFinish | internal/s3api/awschunked.go:29-56 | Reads into non-empty buffers reach the end within the data, the planned short reads and one more |
| AwsChunked.StreamIsDeliveredExactlyWhenDeclared | internal/s3api/awschunked.go:14-18 | A well-formed stream is handed out whole and ends cleanly if and only if it has the declared length |
| AwsChunked.TruncationPassesExactlyWhenLate | internal/s3api/awschunked.go:29-69 | For every data, declared length, way of delivering and sequence of enough non-empty buffers: a truncated stream ends cleanly if and only if it has the declared length and no read reports the truncation together with the last octets |
| AwsChunked.TruncationGoesBothWays | internal/s3api/awschunked.go:64-65 | For all data there is a reader with which it passes and one with which it fails |
| AwsChunked.AwsChunkedReader.Read | internal/s3api/awschunked.go:29-56 | Read on the object is the reader function |
| AwsChunked.AwsChunkedReader.Finish | internal/s3api/awschunked.go:59-69 | finish on the object, with the loop of io.ReadFull |
| UriEncoding.EncodeIsNormal | internal/s3api/sigv4.go:626-646 | The output is only unreserved octets, allowed slashes and upper-case escapes |
| UriEncoding.FixedExactlyWhenNormal | internal/s3api/sigv4.go:626-646 | Exactly such texts are left unchanged |
| UriEncoding.EncodeIdempotent | internal/s3api/sigv4.go:626-646 | Encoding twice is encoding once |
| UriEncoding.EncodePreservesMeaning | internal/s3api/sigv4.go:626-646 | Lenient percent-decoding of the output is that of the input |
| UriEncoding.OctetsOfEncoded | internal/s3api/sigv4.go:626-646 | Only letters, digits, four marks and escapes come out, and a slash only where it is allowed |
| UriEncoding.UnreservedStays | internal/s3api/sigv4.go:626-646 | What needs no escape stays as it is |
| UriEncoding.UriEncode | internal/s3api/sigv4.go:626-646 | The builder loop computes the encoding |
| CanonicalQuery.CanonicalIsOrderFree | internal/s3api/sigv4.go:498-530 | Any permutation of the parts of a raw query has the same canonical query |
| CanonicalQuery.CanonicalDecidesPairs | internal/s3api/sigv4.go:498-530 | Two non-empty raw queries have the same canonical query exactly when they have the same encoded pairs, as a multiset |
| QueryPairs.CanonicalSays | internal/s3api/sigv4.go:498-530 | Read back, the canonical query is keys and values in normal form, in ascending order of their octets, that decode to exactly the keys and values of the raw query, each as often, less the signature of a presigned one |
| QueryPairs.DifferentMeaningsDiffer | internal/s3api/sigv4.go:498-530 | Two raw queries that decode to different keys or values never share a canonical query |
| Strings.LessEqIs | internal/s3api/sigv4.go:518-523 | The order is that of octets: at the first difference the smaller one, or the end, comes first |
| CanonicalQuery.SignatureIsLeftOut | internal/s3api/sigv4.go:507-512 | Appending a signature to a non-empty presigned query leaves the canonical query unchanged |
| CanonicalQuery.SignaturePart | internal/s3api/sigv4.go:507-512 | Every X-Amz-Signature pair is such a signature |
| CanonicalQuery.SignatureAfterEmptyQuery | internal/s3api/sigv4.go:498-501 | With an empty query it does change it |
| CanonicalQuery.SignatureIsLeftOutExactlyWhen | internal/s3api/sigv4.go:498-512 | Appending a signature to a presigned query leaves the canonical query unchanged if and only if the query is not empty |
| CanonicalQuery.SignatureAlone | internal/s3api/sigv4.go:498-512 | A signature that is all of the query leaves the empty canonical query unchanged |
| CanonicalQuery.SortedIsUnique | internal/s3api/sigv4.go:518-523 | There is only one way to sort pairs by key and value |
| CanonicalQuery.SortStable | internal/s3api/sigv4.go:518-523 | The in-place sort computes the sorted sequence |
| CanonicalQuery.EncodeAll | internal/s3api/sigv4.go:506-517 | The loop that encodes the parts and leaves the signature out |
| CanonicalQuery.CanonicalQuery | internal/s3api/sigv4.go:498-530 | The whole computation, with its loops and its array, is the canonical query function |
| Strings.SplitOfJoin | internal/s3api/sigv4.go:529 | Joining parts without the separator and splitting again returns them |
| Strings.JoinOfSplit | internal/s3api/sigv4.go:667 | Splitting and joining again returns the text |
| SignedHeaders.NormalizeDecidesWords | internal/s3api/sigv4.go:648-664 | For every octet string the normalised value is UTF-8, normalising twice is normalising once, and two values normalise alike exactly when they have the same words after ill-formed octets became U+FFFD |
| SignedHeaders.WordsFollowTheirRules | internal/s3api/sigv4.go:648-664 | White space separates words, and a text without it is one word |
| SignedHeaders.NormalizeHeaderValue | internal/s3api/sigv4.go:648-664 | The loop over runes yields the words of the value one space apart, ill-formed octets replaced |
| SignedHeaders.CollapseOfRunes | internal/s3api/sigv4.go:652-662 | Ranging over runes and writing them back is the octet loop over the text with its ill-formed octets replaced |
| Runes.SanitizeIsWellFormed | internal/s3api/sigv4.go:652-662 | Ranging over any octet string and writing the runes back gives UTF-8 |
| Runes.FixedExactlyWhenWellFormed | internal/s3api/sigv4.go:652-662 | It changes nothing exactly in UTF-8 text |
| SignedHeaders.ParseSignedHeaders | internal/s3api/sigv4.go:385-413 | Exactly the strictly increasing lists of non-empty names that strings.ToLower leaves unchanged, host among them, are accepted, and joining the result returns the value |
| PublicPath.UnescapeOfEscape | internal/signing/hmac.go:305-311 | An escaped segment is read back, contains no slash, and is empty only for the empty segment |
| PublicPath.SinglePathReturns | internal/signing/hmac.go:300-314 | For every bucket and key the printed path is parsed to the key without its empty segments, or to an error when nothing is left |
| PublicPath.MultiPathReturns | internal/signing/hmac.go:300-314 | The same with a server alias |
| PublicPath.PathRoundTrip | internal/publicpath/publicpath.go:24-101 | ParseEscapedPath inverts appendObjectPath exactly on keys without empty segments, and every valid key is one |
| PublicPath.DefaultBucketRoundTrip | internal/publicpath/publicpath.go:103-183 | The same for the default-bucket printer and parser when the resolver supplies the bucket |
| PathParsing.SingleAcceptsExactly | internal/publicpath/publicpath.go:24-101 | A single-server path is accepted exactly if it is /bucket/key, both correctly escaped and not empty, and as their unescaped texts |
| PathParsing.MultiAcceptsExactly | internal/publicpath/publicpath.go:24-101 | A multi-server path exactly if it is /server/bucket/key, the server an alias |
| PathParsing.DefaultAcceptsExactly | internal/publicpath/publicpath.go:118-141 | With a default bucket exactly /key |
| PathParsing.MultiDefaultAcceptsExactly | internal/publicpath/publicpath.go:143-183 | With a default bucket for the server exactly /server/key |
| PathParsing.FallbackRoundTrip | internal/publicpath/publicpath.go:103-153 | Without a default bucket the plain parser is in charge: what the plain printer prints is read back exactly when the key has no empty segment |
| PathParsing.BaseIsPrefixed | internal/signing/hmac.go:300-314 | A base path goes in front of the printed path, whatever slashes surround it |
| PathParsing.UnescapesExactlyWhen | internal/publicpath/publicpath.go:223-229 | A text is unescaped exactly if two hexadecimal digits follow every percent sign |
| PathParsing.PlainStays | internal/signing/hmac.go:305-311 | Letters, digits and ten marks go unescaped |
| PathParsing.OctetsOfEscaped | internal/signing/hmac.go:305-311 | And nothing else does |
| PathParsing.CleanFollowsItsRules | internal/signing/hmac.go:343 | path.Clean of a rooted path: empty and dot elements go, a dot-dot element goes with the one before it or alone at the root, anything else stays |
| PathParsing.SignedObjectIs | internal/signing/hmac.go:342-360 | objectFromPath reads the bucket off the first cleaned element and the key off all the others |
| SignedPath.ParsersAgree | internal/signing/hmac.go:342-360 | Whenever the public parser returns an acceptable bucket and key, objectFromPath returns the same |
| SignedPath.CleanKeepsOrdinary | internal/signing/hmac.go:343 | path.Clean changes nothing in a path of ordinary elements |
| SignedPath.UnescapeOfJoin | internal/signing/hmac.go:355-358 | Unescaping a whole key is unescaping its segments |
| SignedPath.KeepNonEmpty | internal/signing/hmac.go:389-397 | nonEmpty in place keeps the non-empty parts in order |
| SignedPath.PrintObjectPath | internal/signing/hmac.go:300-314 | The accumulating loop prints the path |
| SignedPath.UnescapeKeySegments | internal/publicpath/publicpath.go:231-241 | The loop of unescapeKey |
| Names.KeyHasNoNewline | internal/tickets/ticket.go:571-575 | A valid key contains no newline |
| Names.AddressIsNoBucket | internal/tickets/ticket.go:446-457 | No dotted IPv4 address is a bucket |
| SignedText.SignedTextIsInjective | internal/signing/hmac.go:284-298 | Accepted claims of one mode without newlines in range and content type have the same signed text only if they are equal |
| SignedText.CollidesExactlyWithNewlines | internal/signing/hmac.go:284-298 | Another accepted claim without such newlines has the same signed text if and only if this one has a newline there |
| SignedText.LinesAreFields | internal/signing/hmac.go:284-298 | Which line of the signed text is which field |
| SignedText.InputIsAcceptedExactlyWhen | internal/signing/hmac.go:201-235 | Which claims claimsFromInput takes, and that it changes nothing but the method, which it trims and capitalises, and the server of a single-server URL |
| Decimals.FirstDigit | internal/signing/hmac.go:364-369 | Digits count by place |
| SignedText.ClaimsAreNormal | internal/signing/hmac.go:201-235 | What claimsFromInput returns satisfies the conditions of these theorems and is returned unchanged when it is given again |
| SignedText.AcceptedIsKept | internal/signing/hmac.go:201-235 | claimsFromInput leaves accepted claims unchanged |
| SignedText.NumberInjective | internal/signing/hmac.go:292 | Two expiries are printed alike only if they are equal |
| SignedText.ParseUnixSeconds | internal/signing/hmac.go:362-374 | parseUnixSeconds in 64-bit arithmetic, for every text: it is read as its value exactly when that is positive with 63 bits, and accepted as another number exactly when the value is longer and its remainder modulo 2^64 is positive with 63 bits |
| SignedText.ExpiryReturns | internal/signing/hmac.go:362-374 | A printed expiry is read back exactly when it is positive with 63 bits; 2^64 + 1 is read as 1 |
| Subjects.DerivationIsTotal | internal/config/config.go:339-351 | A template that passes validation gives every valid alias a valid subject without braces |
| Subjects.DerivationIsInjective | internal/config/config.go:339-351 | Two aliases never derive the same subject |
| Subjects.TemplateIsAcceptedExactlyWhenAnAliasFits | internal/config/config.go:398-401 | The one sample that the template check renders decides for every alias |
| Subjects.AnyWordWillDo | internal/config/config.go:353-371 | For a template with a placeholder any two words give subjects that are both valid or both not |
| Subjects.EveryPlaceholderIsReplaced | internal/config/config.go:346 | Every placeholder becomes the alias and nothing else changes |
| Subjects.SubjectIsValidExactlyWhen | internal/config/config.go:353-371 | Exactly the texts without white space, control characters, wildcards and empty tokens are subjects |
| Subjects.ScanBraces | internal/config/config.go:377-396 | The brace scan with its index and flag accepts exactly the templates whose braces are placeholders |
| SessionTheorems.StepKeepsInv | internal/ingestsmux/client.go:128-221 | Every step of Send, Close and of breaking sessions keeps the slot invariant of both senders |
| SessionTheorems.NoSessionLeaks | internal/ingestsmux/client.go:142-205 | In every run each dialled session is closed or held in exactly one slot |
| SessionTheorems.WalkedSlotStaysEmpty | internal/ingestquic/client.go:125-140 | Once Close has passed over a slot it is empty for good |
| SessionTheorems.NothingOpenAfterClose | internal/ingestquic/client.go:125-204 | Close of a QUIC sender, or of a smux sender that it finds open: in every run, once that call has returned no session is open, then or later |
| SessionTheorems.CloseClosesExactlyWhen | internal/ingestsmux/client.go:128-140 | In every run the return of a Close means that nothing is open, if and only if the sender is a QUIC sender, the call finds it open, or nothing was open at the call; otherwise the call returns at once and leaves the sessions as they are |
| SessionTheorems.CloseIsReliableExactlyWhen | internal/ingestsmux/client.go:128-140 | Over all runs of all senders of a kind the return of a Close means that nothing is open, if and only if the sender is a QUIC sender, the call finds it open, or an earlier Close has passed over all slots |
| SessionProgress.SomeoneMoves | internal/ingestsmux/client.go:161-221 | No deadlock: while a Send or a Close is running some call can go on, since whoever holds a slot's lock waits for none |
| SessionProgress.WorkGoesDown | internal/ingestsmux/client.go:142-221 | Every step of a running call lowers the total work of the running calls |
| SessionProgress.EveryCallReturns | internal/ingestsmux/client.go:95-221 | From every reachable state of either sender the running calls alone return in at most TotalWork steps, and if the sender is closed then, no session is open |
| SessionProgress.CloseTakesOneStepPerSlot | internal/ingestsmux/client.go:128-140 | From its beginning to its return a Close takes exactly one step for each slot and one to return, whatever runs beside it |
| SessionTheorems.SecondCloseMayReturnEarly | internal/ingestsmux/client.go:128-131 | A run in which the second smux Close has returned while a session is open |
| SessionSender.AttemptIsARun | internal/ingestsmux/client.go:161-191 | An undisturbed openStreamOnce is a run, for both senders |
| SessionSender.OpenedIsHeld | internal/ingestquic/client.go:142-204 | A session is returned only by an open sender, from the slot whose turn it was |
| SessionOutcomes.OpensExactlyWhen | internal/ingestquic/client.go:142-204 | openStream succeeds exactly on an open sender whose first attempt gets through, or is tried again and gets through on a fresh session; the stream is on an open session held in the slot in turn, and a live session is used without dialling |
| SessionOutcomes.OpenStreamIsARun | internal/ingestsmux/client.go:142-191 | An undisturbed openStream, with its slot in turn, reset and second attempt, is a run of the step relation |
| SessionSender.CloseEmpties | internal/ingestsmux/client.go:128-140 | A Close that finds the sender open, or of a QUIC sender, empties all slots and closes all sessions |
| SessionSender.Sender.OpenStreamOnce | internal/ingestsmux/client.go:161-191 | openStreamOnce on the object |
| SessionSender.Sender.OpenStream | internal/ingestquic/client.go:142-177 | openStream on the object: slot in turn, one reset, one more attempt |
| SessionSender.Sender.CloseSlot | internal/ingestsmux/client.go:214-221 | closeSessionSlotLocked on the object |
| SessionSender.Sender.Close | internal/ingestsmux/client.go:128-140 | The closing loop on the object; after it the slots are empty and every session is closed |

## Left out

- TLS, certificates, HMAC, SHA-256, tokens and constant-time comparison: foreign cryptography; tokens are compared for equality.
- NATS, the AWS SDK, the net/http servers, and the inside of smux and quic-go: a session is open or closed, a connection is a FIFO octet channel.
- Wall-clock time and deadlines of connections: time is a number given to each call; a deadline that passes is a failing read or write, and a connection may refuse to take one.
- Panics of the response writer are failed writes; flushing is part of the write; response headers and status codes are not recorded.
- The MessagePack library: the int, str and map formats are written from the specification, with nil and one extension header taken where a map is expected; the other formats are never reached.
- 32-bit platforms: int is 64 bits wide, so the range check on the status code never fails.
- HandleConn as a method: the server's connection handler is modelled as moves of the Delivery step relation; only its copy loop is a method.
- Delivery: a connection that is lost without an end of stream is a failing read; the client's header goes onto the channel in one move, and the octets that the server reads ahead of its writes are not buffered apart from the current chunk.
- PendingRegistry: the methods are whole calls without interruption; interruption is the subject of the step relation, to which the calls are tied as runs.
- TicketWorkerPool.SharedPool.Work: a worker's loop without interruption; interleaving is the subject of the step relation, to which the loop is tied as a run.
- SignedHeaders.ParseSignedHeaders: strings.ToLower is a parameter, because beyond ASCII it follows the Unicode tables.
- SessionSlots: the slot counter is unbounded where the smux sender's wraps at 64 bits.
- PublicPath: error values carry the case but not the message; the whole URL text through net/url is not modelled, because SignURLForModeWithOptions stores escaped text in a path that net/url escapes again.
- Listing through the edge, the validation tables of write tickets and fetch results, S3 classification, environment loading, logging and XML: shallow or plumbing.
- The Python and TypeScript ports and packages/go/edgesign: they restate the Go signing code.
