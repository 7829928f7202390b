# A verified model of the web gateway's stateful core

The gateway stands between browsers and a Java game server. It rate-limits its authentication
routes, runs passkey ceremonies whose accounts Java vouches for, mints sessions, and then proxies
a WebSocket to a line-based JSON connection that opens with a signed command. A separate tool
probes latency with a pool of workers. These guarantees hold only over whole runs and
interleavings, so this project models the parts as the Go code has them and proves the guarantees
over every run:

| file | what it models |
|---|---|
| `Clock.dfy`, `Wrappers.dfy`, `Sequences.dfy` | instants, results, and filtered sequences |
| `RateLimit.dfy` | the fixed-window limiter with one prune timer for all keys, and the bucket keys |
| `Sessions.dfy` | the session store, with the clock reading of a creation outside the lock |
| `KeepAlive.dfy` | the keep-alive loop of an open connection against the session store |
| `Text.dfy`, `Base64Url.dfy`, `Credentials.dfy` | name normalizers, unpadded base64url (section 5 of RFC 4648), and credential identity through it |
| `Ceremonies.dfy` | the two maps of pending ceremonies: insert, take once, expire, prune |
| `Provenance.dfy` | every options and verify request as a concurrent flight, with Java and WebAuthn as oracles |
| `Proxy.dfy` | the play handler and its three goroutines over one error channel and a cancel flag |
| `JavaStream.dfy`, `BrowserFrames.dfy` | the handshake and the two copying loops, as conservation of streams |
| `Json.dfy`, `Signing.dfy` | a JSON printer and parser (RFC 8259), and canonical signing over them |
| `WorkerPool.dfy`, `Percentile.dfy` | the probe's worker pool, its tallies, and nearest-rank percentiles |

## How it is modelled

- Code that changes objects step by step is a class or a method with loops (`Limiter`, `Store`,
  `Registry`, `Reader`, `Connection`, the copying loops, the normalizers, signing, tallies, sorting).
  Each method is proved equal to a specification function of the old state, and the theorems over
  runs are proved about those functions.
- Goroutines and requests are step machines: a run is any sequence of enabled steps, and each
  locked region is one step.
- Time is an integer that never goes backwards and is never the zero time, which the Go code uses
  for "unset". A clock reading is a parameter of the method that takes it.
- Random ids are fresh: an insertion under an id that was used before is not enabled. A random
  source that fails is an error path of the caller.
- The MAC is a parameter. It is assumed non-empty or injective only in the lemmas that say so.
- The WebAuthn library is an oracle. It may accept or reject anything, except that it only accepts
  an assertion whose raw id belongs to one of the user's built credentials and, in a discoverable
  login, is the raw id it passed to the user handler.
- Java may answer anything, at any time, or never. Whether a text is JSON, and how a line's
  envelope decodes, are arbitrary functions in the stream modules.
- What the source calls a credential's label is `name` here, since `label` is a keyword of Dafny.
- Text is a sequence of Unicode scalar values; lengths that Go measures in bytes are UTF-8 lengths.

## Model

| member | source | states |
|---|---|---|
| RateLimit.Limiter.constructor | internal/ratelimit/limiter.go:22-29 | a new limiter has the given limits, no buckets and no prune time |
| RateLimit.Limiter.Allow | internal/ratelimit/limiter.go:37-53 | the call prunes, then opens, charges or refuses the key's own bucket; every other bucket is as pruning left it |
| RateLimit.Limiter.PruneExpired | internal/ratelimit/limiter.go:55-65 | when due, exactly the buckets whose window is over leave the map and the timer moves one window past now; otherwise nothing changes |
| RateLimit.ChargeAfterPrune | internal/ratelimit/limiter.go:37-53 | pruning just before a call never changes what the call does to its own bucket |
| RateLimit.NonInterference | internal/ratelimit/limiter.go:37-65 | in every interleaving over all keys, the answers for one key are those of a prune-free single counter run on that key's calls alone |
| RateLimit.SlidingBound | internal/ratelimit/limiter.go:37-53 | with L = max(1, limit), any half-open interval of n >= 1 windows holds at most (n + 1) * L - 1 allowed calls of a key, in every run over all keys |
| RateLimit.SlidingBoundIsTight | internal/ratelimit/limiter.go:37-53 | for every limit, every window longer than one instant, every n >= 1 and every interval of n windows from time 2 on, some run admits exactly (n + 1) * L - 1 calls in it |
| RateLimit.DenialNeedsFullWindow | internal/ratelimit/limiter.go:48-50 | a refused call had at least `limit` allowed calls of its key within the preceding window |
| RateLimit.BucketsAreYoung | internal/ratelimit/limiter.go:55-65 | after any call, every bucket left in the map is younger than two windows |
| RateLimit.BucketKeysAreDistinct | internal/httpapi/server.go:525-530 | two requests share a bucket exactly when action and client address both agree |
| Sessions.Store.constructor | internal/session/store.go:32-39 | a new store has the two limits and no records |
| Sessions.Store.Create | internal/session/store.go:47-67 | with an id, the record carries that id, the given account, credential and label, and is dated by the reading taken before the lock, expiring one lifetime later; the locked part prunes with that reading and inserts; without an id, nothing changes |
| Sessions.Store.Get | internal/session/store.go:69-73 | finds and touches the session, or removes it when expired, or changes nothing when absent |
| Sessions.Store.Touch | internal/session/store.go:75-79 | as for a lookup |
| Sessions.Store.TouchLocked | internal/session/store.go:81-94 | an absent id changes nothing, an expired record is deleted, a live one gets only a new last-seen time |
| Sessions.Store.Delete | internal/session/store.go:96-100 | removes that id only |
| Sessions.Store.PruneExpired | internal/session/store.go:102-112 | when due, exactly the expired records go and the timer moves by the shorter limit |
| Sessions.GetMatchesHistory | internal/session/store.go:47-116 | in every concurrent run, a lookup succeeds iff the id was issued, never deleted, is younger than the absolute limit, and no gap between consecutive sightings from creation to now exceeds the idle limit; it returns the record as issued, with only last-seen changed |
| Sessions.LookupReturnsCreation | internal/session/store.go:47-94 | in every concurrent run, a lookup that succeeds returns the account, credential and label of the creation that drew the id, dated by the clock that creation read |
| Sessions.FailureIsPermanent | internal/session/store.go:69-94 | once a lookup of an issued session fails, every later one fails, whatever happens in between |
| Sessions.StaleCreateIsSafe | internal/session/store.go:52-64 | a creation that takes the lock with an old clock reading drops only sessions dead at the current time, moves the prune timer strictly forward when it prunes, and changes no other session's lookup |
| Sessions.GarbageIsYoung | internal/session/store.go:102-112 | after a creation, a retained expired record has been dead for less than the shorter limit, when creations take the lock in the order of their clock readings |
| KeepAlive.LoopEndsByExpiry | internal/httpapi/server.go:668-687 | however often it touches, and whatever other clients do, the loop is over one tick wait and one ping after the later of its start and the session's absolute expiry, which no touch moves |
| KeepAlive.ExpiryBoundIff | internal/httpapi/server.go:668-687 | the bound by the absolute expiry alone holds on every run exactly when the loop started no later than the expiry |
| KeepAlive.LateStartOutlivesExpiry | internal/httpapi/server.go:427-491 | a reachable run in which it fails: with a lifetime of 5, a session created and admitted at time 1 whose loop starts at time 10 |
| KeepAlive.BeatGoesOnIff | internal/httpapi/server.go:681-684 | after a successful ping the session is touched, and the loop goes on exactly when the session is live |
| KeepAlive.PingFailureEnds | internal/httpapi/server.go:675-680 | a failed ping ends the loop for good without touching the session |
| KeepAlive.NeverIdleExpired | internal/session/store.go:81-116 | if a tick wait and a ping fit in the idle limit, the first touch is in time, pings succeed and nobody deletes the session, then at every moment the session is live iff its absolute expiry is ahead, and until then the loop runs |
| Text.TrimSpaceTrims | internal/passkeys/passkeys.go:588 | trimming removes white space at the two ends and nothing else, leaves none there, keeps a trimmed text, and is idempotent |
| Text.WhiteSpaceIs | internal/passkeys/passkeys.go:588 | the white space trimmed is Unicode's, character by character |
| Text.LowerMeans | internal/passkeys/passkeys.go:633-640 | two texts have the same lower case exactly when they differ only in the case of letters |
| Text.ByteLenIsUtf8 | internal/passkeys/passkeys.go:589 | a length in bytes is that of the text's UTF-8 form (section 3 of RFC 3629) |
| Text.IsSafeAccountName | internal/passkeys/passkeys.go:609-617 | the loop accepts exactly the texts of safe characters |
| Text.NormalizeSignupAccount | internal/passkeys/passkeys.go:587-596 | accepts exactly a value whose trimmed text is 3 to 32 safe characters and not, but for case, matt, root, admin, sysop or anything beginning with ai_pool_; returns that text |
| Text.NormalizeLoginAccount | internal/passkeys/passkeys.go:598-607 | accepts exactly a value whose trimmed text is 3 to 32 safe characters; returns that text |
| Text.NormalizePasskeyLabel | internal/passkeys/passkeys.go:619-631 | accepts exactly a value whose trimmed text is 1 to 48 safe characters; returns that text |
| Text.SignupAccepts | internal/passkeys/passkeys.go:587-640 | signup accepts exactly the trimmed names of 3 to 32 safe characters that are not reserved in any case; what it returns it accepts again, and a login handle can carry it |
| Text.LoginAccepts | internal/passkeys/passkeys.go:598-617 | a handle names exactly its trimmed text of 3 to 32 safe characters |
| Text.LabelAccepts | internal/passkeys/passkeys.go:619-631 | a label is exactly a trimmed text of 1 to 48 safe characters, and is accepted again |
| Base64Url.DecodeUndoesEncode | internal/javawire/client.go:340-346 | decoding an encoding gives the bytes back, for all byte strings |
| Base64Url.EncodeIsInjective | internal/javawire/client.go:344-346 | two encodings are equal exactly when the bytes are |
| Base64Url.DigitsAreTheAlphabet | internal/javawire/client.go:340-346 | the digits are the alphabet of table 2 of RFC 4648 in its order |
| Base64Url.EncodeSpells | internal/javawire/client.go:344-346 | the encoding has as many digits as the bits need, and every four of them spell the same 24-bit number as their three bytes |
| Base64Url.WithoutLineBreaksMeans | internal/javawire/client.go:340-342 | decoding leaves out carriage returns and newlines and nothing else |
| Base64Url.DecodesIff | internal/javawire/client.go:340-342 | a text decodes exactly when the rest is all digits and no digit stands alone |
| Base64Url.CanonicalMeansRoundTrip | internal/javawire/client.go:340-346 | a text encodes something exactly when decoding it and encoding again gives it back |
| Base64Url.DecodeAlike | internal/javawire/client.go:340-342 | exactly how lenient decoding is: two decodable texts decode alike iff, line breaks apart, they have the same digits but for the unused bits of the last one |
| Base64Url.CanonicalMeansCleared | internal/javawire/client.go:340-346 | a text encodes something iff it is all digits, of a possible length, with no unused bit set |
| Base64Url.DecodeIsLenient | internal/javawire/client.go:340-342 | an unused bit makes a second text for the same byte, so decoding is not injective |
| Base64Url.DecodeSkipsLineBreaks | internal/javawire/client.go:340-342 | and so does a line break |
| Credentials.TransportsOf | internal/passkeys/passkeys.go:479-487 | exactly the transports that are not blank, trimmed, in order |
| Credentials.WebAuthnCredentials | internal/passkeys/passkeys.go:465-505 | one built credential for exactly the records whose id and key decode, in order, field by field: decoded id and key, cleaned transports, sign count, both backup flags |
| Credentials.LabelForCredential | internal/passkeys/passkeys.go:543-553 | the label of the first record with that id, or "passkey" when that label is empty or there is no such record |
| Credentials.FindActive | internal/passkeys/passkeys.go:295-301 | the scan finds something exactly when an active record's id is the encoding of the raw id |
| Credentials.BuiltCredentialKeepsLabel | internal/passkeys/passkeys.go:245-246 | for every list of records: re-encoding the id of a built credential finds its own record, and so its label, exactly when that record's id is canonical and no earlier record has the same id |
| Credentials.NonCanonicalIdsConfuseLabels | internal/passkeys/passkeys.go:543-553 | an input on which it finds another record: two distinct ids that build one raw id |
| Credentials.MatchIsByRawId | internal/passkeys/passkeys.go:295-301 | the scan compares text: it succeeds iff an active record with a canonical id decodes to the raw id |
| Credentials.RecordAdmitsOneRawId | internal/passkeys/passkeys.go:295-301 | one stored record lets at most one raw id pass, canonical or not |
| Ceremonies.Registry.constructor | internal/passkeys/passkeys.go:131-156 | both maps are empty; a lifetime that is not positive becomes five minutes |
| Ceremonies.Registry.AddLogin | internal/passkeys/passkeys.go:178-185 | prunes, then inserts the login ceremony with an expiry one lifetime after its own clock reading |
| Ceremonies.Registry.AddRegistration | internal/passkeys/passkeys.go:354-363 | the same for a registration |
| Ceremonies.Registry.TakeLogin | internal/passkeys/passkeys.go:417-426 | the id is gone afterwards in any case; the ceremony is returned iff it was there and unexpired |
| Ceremonies.Registry.TakeRegistration | internal/passkeys/passkeys.go:428-437 | the same for a registration; the login map is untouched |
| Ceremonies.Registry.PruneLocked | internal/passkeys/passkeys.go:439-455 | when due, exactly the expired ceremonies leave both maps and the shared timer moves by one lifetime |
| Ceremonies.TakeMatchesHistory | internal/passkeys/passkeys.go:417-455 | in every run, a take returns the ceremony last added under the id, if nobody asked for it since and its time is not over; the shared prune timer changes no outcome |
| Ceremonies.LoginOpenMeans | internal/passkeys/passkeys.go:417-426 | with fresh ids, a login is open iff one operation added it and none after that asked for it, and it is that operation's ceremony |
| Ceremonies.RegOpenMeans | internal/passkeys/passkeys.go:428-437 | the same for registrations |
| Ceremonies.TakeSucceedsIff | internal/passkeys/passkeys.go:417-437 | a take succeeds iff the id was inserted in that map, nobody asked for it since, and now is before insertion time plus lifetime |
| Ceremonies.TakenOnce | internal/passkeys/passkeys.go:417-437 | after a take of an id, successful or not, later takes of it fail, for either kind |
| Ceremonies.PendingIsYoung | internal/passkeys/passkeys.go:439-455 | after an insertion, every pending ceremony of either kind is younger than two lifetimes at the prune's clock reading |
| Provenance.StepKeepsInv | internal/passkeys/passkeys.go:158-437 | every step of every request keeps the system invariant that ties flights, ceremonies, consumed ids, commands and sessions to what Java said |
| Provenance.RequestsBeginOnce | internal/passkeys/passkeys.go:158-437 | in every run a request has one beginning, so what the record of a request says it submitted is all it submitted |
| Provenance.SessionsAreInjective | internal/httpapi/server.go:300-315 | in every reachable state no ceremony id has been consumed twice, and the sessions minted map one-to-one into consumed ids |
| Provenance.SessionProvenance | internal/httpapi/server.go:300-315 | each session was minted by the request that took its ceremony, after Java accepted that request's counter update or command; a registration's session only by the signup route, with its command sent; the account is the one the login named and Java listed the credential for, or the normalised user handle for which Java listed the very credential as active, or the one the registration was entitled to |
| Provenance.CommandProvenance | internal/passkeys/passkeys.go:304-415 | each command comes from its own consumed ceremony, alone, and is of its kind; a signup command only for the acceptable name its request asked for, whose lookup Java rejected with an empty or "Unknown account." message; a register command only for the account that Java, or for a local token the enabled shortcut, resolved that request's own trimmed token to |
| Provenance.DiscoverableOptionsBegin | internal/passkeys/passkeys.go:158-191 | a login request without an account begins a discoverable ceremony with the full lifetime |
| Provenance.NamedOptionsBegin | internal/passkeys/passkeys.go:193-227 | one with an account begins a ceremony for the trimmed account over exactly what Java listed, iff Java listed something |
| Provenance.LocalRegistrationBegins | internal/passkeys/passkeys.go:304-370 | with the shortcut enabled, a local token begins a registration for the account it names, iff there is one and the label is acceptable |
| Provenance.PairingRegistrationBegins | internal/passkeys/passkeys.go:520-541 | any other token begins one for the account Java claims, iff there is one and token and label are acceptable |
| Provenance.SignupBeginsIff | internal/passkeys/passkeys.go:320-337 | a signup request begins its ceremony iff name and label are acceptable and Java refused the lookup with an empty or "Unknown account." message |
| Provenance.RefusalEnds | internal/passkeys/passkeys.go:193-337 | a request that fails, or whose lookup is refused for any other reason, ends without beginning, sending or minting anything |
| Provenance.LoginMints | internal/passkeys/passkeys.go:229-251 | an open account-named login, accepted by the library and confirmed by Java, adds exactly one session: the ceremony's account, the used credential and its label |
| Provenance.DiscoverableLoginMintsIff | internal/passkeys/passkeys.go:253-302 | an open discoverable login adds its session iff the handle names an account and Java lists the credential used as active; otherwise it adds none |
| Provenance.RegistrationSendsCommand | internal/httpapi/server.go:397-425 | an attested registration sends the one command of its ceremony's kind by either route, and mints a session iff the route is signup's |
| Proxy.RootCauseSurvives | internal/httpapi/server.go:459-476 | in every interleaving the handler receives the first error sent, which arose before the derived cancel and the closes; it is a cancellation only if the request was cancelled |
| Proxy.SendsNeverBlock | internal/httpapi/server.go:462-475 | a goroutine with an error to send always finds room in the channel |
| Proxy.BrowserSeesCause | internal/httpapi/server.go:475-491 | in every run the status the browser was closed with is decided by the first error sent: normal iff a cancellation or normal closure, "session expired" iff that, "going away" iff a failed heartbeat, "proxy violation" iff anything else; the deferred second close never shows |
| Proxy.NormalCloseIsGenuine | internal/httpapi/server.go:476-480 | the browser was closed normally iff a connection had closed normally before shutdown began, or the request had been cancelled and that is what went wrong first |
| Proxy.OperationsAlternate | internal/httpapi/server.go:614-687 | a frame is written only after one was read, and the session is touched only after a ping was answered |
| Proxy.ReturnedWindsDown | internal/httpapi/server.go:459-491 | after the deferred calls, every possible step decreases the measure |
| Proxy.ReturnedMakesProgress | internal/httpapi/server.go:459-491 | after the deferred calls, every unfinished goroutine has a step that neither peer can withhold: its operation is bound to fail, or needs nobody |
| Proxy.JavaReadNeedsClose | internal/httpapi/server.go:459-491 | in any reachable state, a goroutine waiting for Java with no line left has such a step exactly when the handler has returned; cancelling is not enough |
| Proxy.BlockedBeforeClose | internal/httpapi/server.go:459-491 | a run in which everything but the close of the Java connection is done and that goroutine is still blocked |
| Proxy.GoroutinesFinish | internal/httpapi/server.go:459-491 | after the deferred calls, every schedule is bounded, and until all three goroutines have finished there is a step that no peer can withhold |
| JavaStream.Reader.ReadLineBounded | internal/javawire/client.go:325-338 | consumes one line: a read error at the end, a protocol error for a line that is oversize, too long or blank, otherwise the trimmed line |
| JavaStream.ReadTyped | internal/javawire/client.go:280-314 | of at most eight lines it skips the startup frames; the first other line decides: the answer, the rejection with that line's own message, or a protocol error; no line is a read error, eight startup frames a protocol error; exactly the lines after it are left |
| JavaStream.HandshakeMeans | internal/javawire/client.go:280-338 | it succeeds iff some line of index below the bound is usable, of the expected type, ok or accepted, and decodes, and all before it are startup frames; it returns that line trimmed and leaves exactly the lines after it |
| JavaStream.HandshakeOutcome | internal/javawire/client.go:280-338 | the same for any bound: the handshake has exactly one outcome, fixed by the first line that is not a startup frame |
| JavaStream.BeginSession | internal/javawire/client.go:187-220 | it succeeds iff the handshake does and the account is empty or the one asked for; the connection stays open exactly then, with the handshake's remaining lines |
| JavaStream.ProxyJavaToBrowser | internal/httpapi/server.go:649-666 | the browser is sent the relayed lines of the reader, after what it had, until a bad line or a failed write |
| JavaStream.RelayedMeans | internal/httpapi/server.go:649-702 | the relayed lines are the trimmed first lines, in order, up to the first that is too long, blank or not JSON, or the first failed write |
| JavaStream.Play | internal/httpapi/server.go:427-491 | handshake and proxy on one reader: it opens iff line k < 8 answers, and the browser then gets exactly the relayed lines k + 1, k + 2, ...; otherwise it gets nothing and the connection is closed |
| BrowserFrames.ProxyBrowserToJava | internal/httpapi/server.go:614-637 | the bytes written to Java are the newline-terminated forwarded frames, in order, cut off only by a failed write |
| BrowserFrames.ForwardedMeans | internal/httpapi/server.go:614-647 | the forwarded frames are those of the longest prefix of text frames that are not too long and are JSON, without the browser's own debug frames, in order |
| BrowserFrames.FramingRecovers | internal/httpapi/server.go:632-633 | splitting what Java receives on newline gives the forwarded frames back iff no such frame contains a newline |
| Json.LeqMeans | internal/javawire/signing.go:78-92 | keys are compared as texts: a prefix first, otherwise by the first character that differs |
| Json.SortedKeysUnique | internal/javawire/signing.go:78-92 | there is one strictly increasing listing of a set of keys, so every encoder that sorts prints maps alike |
| Json.MapPrintsInOrder | internal/javawire/signing.go:78-92 | a map prints as its members, each once, in increasing key order, comma-separated |
| Json.SequencePrints | internal/javawire/signing.go:78-92 | a struct prints its fields in their own order, an array its items |
| Json.ScalarsPrint | internal/javawire/signing.go:78-92 | the other values print as null, true, false and decimal numbers |
| Json.ShortEscapes | internal/javawire/signing.go:78-92 | the seven two-character escapes, and that every other character but those below prints as it is |
| Json.UnitEscapes | internal/javawire/signing.go:78-92 | the other controls, HTML's three characters and the two line separators print as code units with lower-case digits |
| Json.ParseStringOfEscaped | internal/javawire/signing.go:81-90 | unescaping an escaped string gives it back, for every Unicode text, and stops at its closing quote |
| Json.ParseMarshal | internal/javawire/signing.go:81-90 | parsing a printed value gives what it denotes and leaves what follows, for arbitrarily nested values |
| Json.FieldOrderIsImmaterial | internal/javawire/signing.go:81-90 | structs whose fields agree in name and meaning denote the same value in whatever order they list them |
| Json.DenoteTwice | internal/javawire/signing.go:86-91 | normalising a normalised value changes nothing |
| Json.UnmarshalMarshal | internal/javawire/signing.go:81-90 | decoding a whole printed text gives what the value denotes |
| Json.UnmarshalLine | internal/javawire/client.go:271-277 | the same with the newline that ends a command on the wire |
| Json.MarshalIsInjective | internal/javawire/signing.go:86-91 | normalised values print alike iff they are the same JSON value |
| Json.MarshalPrintable | internal/javawire/client.go:271-276 | printed text holds no control character, whatever its strings hold |
| Signing.CloneMap | internal/javawire/signing.go:94-100 | the copy equals the map |
| Signing.CanonicalPayload | internal/javawire/signing.go:78-92 | never fails, and gives the print of the JSON value the payload denotes, signature apart: its members in increasing key order |
| Signing.SignWithNonce | internal/javawire/signing.go:24-56 | succeeds iff there is a gateway id, a secret of 32 bytes and a nonce to be had, with that order of errors; the result keeps the payload's other fields, sets the gateway's, and carries the tag of what it denotes |
| Signing.Verify | internal/javawire/signing.go:58-76 | an error for a short secret or a missing signature; otherwise true iff the signature is the tag of the JSON value the payload denotes |
| Signing.CommandLine | internal/javawire/client.go:262-278 | the bytes written are one line that parses to a payload with all that was to be sent and an authentic signature |
| Signing.CanonicalPrintsMeaning | internal/javawire/signing.go:78-92 | canonicalising never fails and prints the JSON value the payload denotes, signature apart |
| Signing.SameTextSameMeaning | internal/javawire/signing.go:78-92 | two payloads have equal canonical text iff they denote the same JSON value, signature apart |
| Signing.CanonicalIsIdempotent | internal/javawire/signing.go:78-92 | the canonical text parses to a payload whose canonical text it is |
| Signing.SigningOutcome | internal/javawire/signing.go:24-56 | the same of the specification function: when signing succeeds, which fields it keeps and sets, and what it signs |
| Signing.ReceivedIsAuthentic | internal/javawire/client.go:262-278 | what arrives after printing and parsing is as authentic, and as complete, as what was signed |
| Signing.VerifyMeans | internal/javawire/signing.go:58-76 | a payload with a signature verifies iff that is the tag of the JSON value it denotes |
| Signing.SignedCarriesTag | internal/javawire/signing.go:48-55 | whenever signing is possible, the signature added is the non-empty tag of what the signed payload means |
| Signing.SignedPayloadVerifies | internal/javawire/signing.go:24-76 | a payload signed, printed, sent as a line and parsed verifies, whatever its nesting, its field order or a signature it had before |
| Signing.TamperingShows | internal/javawire/signing.go:58-76 | with an injective MAC, any payload given the signature made for another verifies iff it denotes the same JSON value |
| Signing.CommandIsOneLine | internal/javawire/client.go:271-277 | splitting the sent bytes on newline gives exactly the one printed command |
| WorkerPool.JobsAreConserved | cmd/latency-probe/main.go:254-271 | in every schedule, at every moment, jobs sent are jobs in flight plus samples produced |
| WorkerPool.SendsNeverBlock | cmd/latency-probe/main.go:254-271 | a worker with a sample can send it at once: there is room and the channel is open |
| WorkerPool.PoolCompletes | cmd/latency-probe/main.go:254-292 | every schedule is bounded, some step is enabled until the end, and the end holds exactly one sample per request |
| WorkerPool.Summed | cmd/latency-probe/main.go:273-292 | the loop's tallies are those of the samples drained |
| WorkerPool.TallyAddsUp | cmd/latency-probe/main.go:273-292 | the errors are the samples with an error, each in its own text's count; status counts plus samples without a status make up all samples; each status count counts that status |
| WorkerPool.TallyDurations | cmd/latency-probe/main.go:280-282 | the durations are those of the samples that took time, in order |
| WorkerPool.ReportAccountsForRequests | cmd/latency-probe/main.go:238-298 | whatever the schedule, a finished pool's report adds up to the requests made |
| Percentile.PercentileIsNearestRank | cmd/latency-probe/main.go:355-367 | for 0 < p <= 100 the percentile is the least value such that at least p percent of the samples are at most it, and it is a sample |
| Percentile.PercentilesIncrease | cmd/latency-probe/main.go:355-367 | percentiles grow with p and lie between minimum and maximum, for every p |
| Percentile.StatsAreOrdered | cmd/latency-probe/main.go:337-353 | min <= p50 <= p90 <= p95 <= p99 <= max, and min <= truncated mean <= max |
| Percentile.SumMeans | cmd/latency-probe/main.go:342-345 | the total behind the mean is the sum: nothing is zero, one value itself, two parts both sums |
| Percentile.SortInPlace | cmd/latency-probe/main.go:341 | the array ends sorted and is a permutation of what it was |
| Percentile.Summarize | cmd/latency-probe/main.go:337-353 | sorts in place, permuting the input, and reports its length, its first and last value, the mean without its fraction, and the 50th, 90th, 95th and 99th percentile of the sorted values |

## Results worth knowing

- The proxy is not always over by the session's expiry plus a tick and a ping. The handler looks
  the session up, then asks Java for a game session; if that outlasts the expiry, the first touch is
  still a whole tick away. `KeepAlive.LateStartOutlivesExpiry` is such a run,
  `KeepAlive.ExpiryBoundIff` gives the exact condition and `KeepAlive.LoopEndsByExpiry` the bound
  that always holds.
- The registration and signup verify routes accept either kind of registration ceremony; the kind
  of the command is the ceremony's, and only the signup route mints a session
  (`Provenance.RegistrationSendsCommand`).
- Base64url decoding ignores unused bits and line breaks, and nothing else (`Base64Url.DecodeAlike`).
  So a stored id that is not canonical is not found again from its raw id, and its passkey can get
  another record's label (`Credentials.NonCanonicalIdsConfuseLabels`); the exact condition is in
  `Credentials.BuiltCredentialKeepsLabel`. A discoverable match, which compares text, is still tied
  to one raw id (`Credentials.RecordAdmitsOneRawId`).
- Cancelling the context does not unblock the goroutine that reads from Java; only the deferred
  close of that connection does (`Proxy.JavaReadNeedsClose`).
- A browser frame with raw newlines is several Java lines; frames are recovered exactly when there
  are none (`BrowserFrames.FramingRecovers`). A signed command never has that problem
  (`Signing.CommandIsOneLine`).

## Left out

- Text.NormalizeSignupAccount: lower-casing is modelled on ASCII letters only. A name with other letters is refused for its characters anyway, so the accepted names are the same.
- Ceremonies.PendingIsYoung: the age is measured at the prune's clock reading, the first of the two readings under the lock; the second may be later.
- KeepAlive.LoopEndsByExpiry: cancellation of the context is not a step here; it is part of the proxy model.
- Json.ParseMarshal: numbers are integers (no fractions, exponents or negative zero), text is valid Unicode, and the decoder's nesting limit is not modelled.
- Percentile.PercentileIsNearestRank: exact real arithmetic; rounding inside the floating-point rank and the conversion to milliseconds are not modelled.
- Percentile.SortInPlace: stands for the library sort, of which only the result is modelled.
- JavaStream.Play: the handler's steps before it (origin, cookie and session lookup, accepting the WebSocket) and the goroutines beside it are left out; the interleaving of the three goroutines is the subject of the proxy model.
- Provenance: Java's client-side protocol errors and account mismatches are failures of the flight; the fields of the stored record other than account, name and credential id are left out; the session store's own life is in the session model.
- WebAuthn cryptography, HMAC-SHA256, random sources: oracles or parameters.
- `SetClock`, wall-clock jumps and overflow of durations.
- Dialing, deadlines, buffer internals of readers and WebSocket internals: a reader is a sequence of lines, a write succeeds whole or fails.
- HTTP routing, CORS and security headers, cookies, redirects, static files, audit events, configuration parsing, origin and RP ID syntax.
- The probe's warm-up, HTTP exchange, comparison of two targets, and its error for a run without measured responses.
