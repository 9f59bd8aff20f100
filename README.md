# wiro CLI core, modelled in Dafny

This project models the decision-making core of the wiro command-line
client, a Go program that talks to the Wiro AI platform. It covers:

- authentication headers: bearer token, API key alone, or a key signed
  with a stored secret, and the fallback between them;
- the saved project profiles and their insert-or-update by API key;
- project listing and selection for a run;
- model listing and the flattening of a model's parameter form;
- the run command's small decisions;
- the parsing and validation of `--set` / `--set-file` / `--set-url` inputs;
- the selection prompts' index arithmetic;
- the naming of downloaded output files;
- the task service, including its hand-written WebSocket client for a
  subset of RFC 6455: the opening handshake (section 4 of RFC 6455), frame encoding and decoding with masking (section 5), and the
  read loop that answers pings.

Layout, one Dafny module per Go file plus three support modules:

| Dafny module | file | Go source |
|---|---|---|
| `Wrappers` | wrappers.dfy | `Option` and `Result` |
| `Text` | text.dfy | the parts of Go's `strings`/`unicode` packages the core uses, on `seq<char>` |
| `Sorting` | sorting.dfy | Go's string order and `sort.Slice`, as an insertion sort |
| `Api` | api.dfy | internal/api/client.go |
| `Config` | config.dfy | internal/config/config.go |
| `Auth` | auth.dfy | internal/auth/service.go |
| `Models` | models.dfy | internal/model/service.go |
| `Projects` | projects.dfy | internal/project/service.go |
| `Task` | task.dfy | internal/task/service.go |
| `WsFrame` | ws_frame.dfy | internal/task/service.go |
| `WsConn` | ws_conn.dfy | internal/task/service.go |
| `WsHandshake` | ws_handshake.dfy | internal/task/service.go |
| `CliHelpers` | cli_helpers.dfy | internal/cli/helpers.go |
| `Run` | run.dfy | internal/cli/run.go |
| `Output` | output.dfy | internal/output/output.go |

Go code that updates state is modelled as imperative Dafny. The credential
store and the in-memory configuration are classes, with methods that
update their fields. The connection is a class over its byte streams.
The loops are `while`/`for` loops carrying invariants, proved against
specification functions. Pure code is modelled as functions.

Where the code and the written description of the system disagree, the
model follows the code. One such case: `isTerminal`
(internal/task/service.go:45-52) treats `task_end` as terminal, although
the test at internal/task/service_test.go:13 expects otherwise.

## Model

| member | source | states |
|---|---|---|
| Task.IsTerminal | internal/task/service.go:45-52 | true exactly for task_postprocess_end, task_cancel, task_end and task_error_full |
| Task.TerminalExamples | internal/task/service.go:45-52 | "" and task_start are not terminal; task_end and task_cancel are |
| Task.LooksLikeNumeric | internal/task/service.go:211-221 | true iff the string is non-empty and every character is in '0'..'9' |
| Task.DetailBody | internal/task/service.go:66-72 | the body is exactly {taskid: v} for an all-digit v, else exactly {tasktoken: v} |
| WsFrame.FinByte | internal/task/service.go:367 | the first header byte has FIN set and carries the opcode's low four bits |
| WsFrame.BigEndian | internal/task/service.go:375-382 | PutUint16/PutUint64 give exactly w bytes |
| WsFrame.FromBigEndian | internal/task/service.go:418 | Uint16/Uint64 of w bytes is below 256^w |
| WsFrame.BigEndianRoundTrip | internal/task/service.go:413-424 | reading back the big-endian bytes of n gives n for every n that fits |
| WsFrame.ToInt64 | internal/task/service.go:424 | int64(uint64) is negative exactly for values of 2^63 and above, and unchanged otherwise |
| WsFrame.TooLargeIffOverCeiling | internal/task/service.go:435-437 | the test "length < 0 or above 32 MiB" on the int64 reading rejects exactly the unsigned lengths above 32 MiB |
| WsFrame.XorCancel | internal/task/service.go:393 | XOR with the same key byte twice gives back the byte |
| WsFrame.MaskBytes | internal/task/service.go:391-394 | same length as the payload; byte i is payload[i] XOR mask[i mod 4] |
| WsFrame.MaskInvolution | internal/task/service.go:443-447 | unmasking a masked payload with the same key gives back the payload |
| WsFrame.LengthField | internal/task/service.go:370-383 | mask bit as given; a literal length below 126, 126 plus two big-endian bytes up to 65535, else 127 plus eight bytes (length mod 2^64) |
| WsFrame.SecondByte | internal/task/service.go:372 | the mask bit as given and the 7-bit length |
| WsFrame.HeaderSize | internal/task/service.go:366-383 | the header before the key is 2, 4 or 10 bytes |
| WsFrame.EncodeWith | internal/task/service.go:365-394 | a frame's length is header + key + payload; byte 0 is FIN and opcode; then the length field |
| WsFrame.EncodeFrame | internal/task/service.go:365-401 | byte 0 = 0x80 or opcode&0x0F; mask bit always set; the three length tiers; then the 4 key bytes and the masked payload |
| WsFrame.EncodeFrameParts | internal/task/service.go:389-399 | a client frame is header, length field, key, masked payload, in that order |
| WsFrame.ExtSize | internal/task/service.go:412-425 | 0, 2 or 8 extended-length bytes follow the second byte |
| WsFrame.ParseHeader | internal/task/service.go:404-425 | a header read consumes 2 bytes plus the extended length |
| WsFrame.ParseBody | internal/task/service.go:427-447 | reading the key, size test and payload consumes no more than is there |
| WsFrame.ParseFrame | internal/task/service.go:403-449 | a frame read consumes at least the two base bytes |
| WsFrame.HeaderRoundTrip | internal/task/service.go:404-425 | an encoded header reads back as opcode&0x0F, the mask bit and int64(length), whatever follows |
| WsFrame.MaskedRoundTrip | internal/task/service.go:403-449 | a masked frame of at most 32 MiB reads back as (opcode&0x0F, payload), consuming exactly the frame |
| WsFrame.BodyRoundTrip | internal/task/service.go:427-447 | key plus masked payload reads back as the payload |
| WsFrame.PlainRoundTrip | internal/task/service.go:403-449 | an unmasked (server) frame reads back as (opcode&0x0F, payload); masked input is not required |
| WsFrame.RoundTrip | internal/task/service.go:365-449 | with or without a key, every payload up to 32 MiB reads back with its opcode bits, consuming exactly the frame |
| WsFrame.ClientFrameRoundTrip | internal/task/service.go:365-449 | readFrame over writeFrame's bytes returns (opcode&0x0F, payload) for every length up to 32 MiB, so 125, 126, 65535 and 65536 too |
| WsFrame.OversizedRejected | internal/task/service.go:435-437 | a declared length above 32 MiB fails with "payload too large" after the header and key, consuming no payload byte |
| WsConn.ReadTextStep | internal/task/service.go:353-360 | a frame that is neither text nor close is passed over; it adds its payload to the pongs iff it is a ping |
| WsConn.ReadTextStop | internal/task/service.go:344-352 | a read error, a text frame or a close frame ends ReadText with that error, the payload or EOF, with no pong after it |
| WsConn.ReadTextSpec | internal/task/service.go:342-363 | ReadText over the bytes to come: never consumes more bytes than there are; its steps are stated by ReadTextStep and ReadTextStop |
| WsConn.Unmask | internal/task/service.go:443-447 | the payload array afterwards is the masked (XORed) old contents |
| WsConn.MaskCopy | internal/task/service.go:391-394 | a fresh array holding payload[i] XOR mask[i mod 4] |
| WsConn.WsConn.constructor | internal/task/service.go:311 | a connection positioned at the start of the stream, nothing sent, open |
| WsConn.WsConn.ReadFull | internal/task/service.go:405 | io.ReadFull: the next len(buf) bytes, or EOF/ErrUnexpectedEOF with the stream drained |
| WsConn.WsConn.ReadHeader | internal/task/service.go:404-425 | consumes and returns exactly what ParseHeader says |
| WsConn.WsConn.ReadLength | internal/task/service.go:410-425 | the 7-bit, 16-bit or 64-bit length as int64, or the short-read error |
| WsConn.WsConn.ReadBody | internal/task/service.go:427-447 | consumes and returns exactly what ParseBody says (key, size test, payload, unmasking) |
| WsConn.WsConn.ReadFrame | internal/task/service.go:403-449 | consumes and returns exactly what ParseFrame says |
| WsConn.WsConn.WriteFrame | internal/task/service.go:365-401 | appends exactly EncodeFrame(opcode, payload, mask) to what was sent |
| WsConn.WsConn.ReadStep | internal/task/service.go:344-361 | one readFrame inside ReadText: it ends the call, or advances and contributes its ping payload |
| WsConn.WsConn.ReadText | internal/task/service.go:342-363 | returns the first text payload, EOF on close, or the read error; sends one pong with the same payload per ping passed, in order |
| WsConn.WsConn.Close | internal/task/service.go:327-332 | the connection is closed afterwards |
| WsHandshake.HostWithPort | internal/task/service.go:233-240 | a host with ':' is kept; otherwise ":443" is added for wss and ":80" for anything else |
| WsHandshake.RequestPath | internal/task/service.go:262-265 | an empty request URI becomes "/", any other is kept |
| WsHandshake.Request | internal/task/service.go:271 | the request starts with the GET line, carries the key header and ends with a blank line |
| WsHandshake.LineEnd | internal/task/service.go:278 | ReadString('\n'): the end just past the next newline, or none when there is none |
| WsHandshake.LeadSpace | internal/task/service.go:295 | the length, at most 3, of the white space rune utf8.DecodeRune reads at the start: an ASCII space byte or the UTF-8 encoding of another Unicode space; a lone byte of 0x80 or more is none |
| WsHandshake.TrailSpace | internal/task/service.go:295 | the same for the rune utf8.DecodeLastRune reads at the end |
| WsHandshake.TrimLeftBytes | internal/task/service.go:295 | a suffix of the line that starts with no white space rune |
| WsHandshake.TrimRightBytes | internal/task/service.go:295 | a prefix of the line that ends with no white space rune |
| WsHandshake.TrimBytes | internal/task/service.go:285-300 | strings.TrimSpace on bytes: no white space rune at either end, and a line without any there is kept |
| WsHandshake.TrimBytesAscii | internal/task/service.go:295 | on ASCII bytes the trim is the ordinary white space trim |
| WsHandshake.LeadAscii | internal/task/service.go:295 | an ASCII byte starts no multi-byte rune |
| WsHandshake.TrailAscii | internal/task/service.go:295 | an ASCII byte ends no multi-byte rune |
| WsHandshake.AsciiSpaceAgrees | internal/task/service.go:295 | below 0x80 the byte test and unicode.IsSpace agree |
| WsHandshake.NotWideEnding | internal/task/service.go:295 | a UTF-8 space encoding never ends with an ASCII byte |
| WsHandshake.LoneByteKept | internal/task/service.go:295 | a lone 0xA0 byte is not trimmed, since Go decodes it as RuneError |
| WsHandshake.EncodedSpaceTrimmed | internal/task/service.go:295 | the UTF-8 no-break space C2 A0 is trimmed |
| WsHandshake.ReplyLineTrim | internal/task/service.go:295-297 | a header line holding a lone 0xA0 is not blank and the loop reads on; one holding C2 A0 is blank and ends the headers |
| WsHandshake.FieldOf | internal/task/service.go:299-302 | a line yields a header entry iff it contains ':'; name and value are trimmed as Go trims bytes |
| WsHandshake.HeaderFoldLastWins | internal/task/service.go:288-303 | a name is in the map iff some line names it; its value is the last such line's; lines without ':' are ignored |
| WsHandshake.HeaderLines | internal/task/service.go:289-303 | lines up to the first one that is blank after strings.TrimSpace on its bytes, or the stream error when the reply ends first |
| WsHandshake.Handshake | internal/task/service.go:277-311 | on success the frames start inside the reply |
| WsHandshake.StatusChecked | internal/task/service.go:283-286 | without "101" in the status line the handshake fails with that line trimmed; with it the header and accept checks decide |
| WsHandshake.AcceptChecked | internal/task/service.go:305-309 | fails with the mismatch error exactly when the last accept line is non-empty and differs from wsAccept(key); no accept line is accepted |
| WsHandshake.LastNaming | internal/task/service.go:299-302 | when some header line names a field, a last line naming it exists |
| WsHandshake.AcceptPasses | internal/task/service.go:305-309 | no accept line, or a last one empty or equal to wsAccept(key), passes the accept check |
| WsHandshake.HandshakeAccepted | internal/task/service.go:277-311 | a "101" status line, header lines ended by a blank one and an acceptable accept line make the handshake succeed, with the frames starting just past the blank line |
| WsHandshake.SplitField | internal/task/service.go:299-302 | computes FieldOf(line) |
| WsHandshake.ReadHeaders | internal/task/service.go:288-303 | the map and the end offset the header loop reaches, as HeaderLines and HeaderFold describe |
| WsHandshake.Address | internal/task/service.go:233-271 | the host to dial with its default port, and the request with path and Host header defaulted |
| WsHandshake.CheckReply | internal/task/service.go:277-311 | computes Handshake: status line, header loop, accept comparison |
| WsHandshake.CheckHeaders | internal/task/service.go:288-311 | the header loop then the accept comparison |
| WsHandshake.DialWS | internal/task/service.go:228-312 | address and request as above; a connection positioned after the headers exactly when Handshake succeeds, else its error |
| WsConn.ReadTextOnFrame | internal/task/service.go:344-361 | seen through readFrame's result: a stopping frame ends ReadText there, any other frame consumed at least one byte and passes on to the rest |
| WsConn.PongsAppend | internal/task/service.go:353-358 | one more ping appends exactly one pong frame carrying its payload |
| WsConn.AfterAfter | internal/task/service.go:342-363 | passing over frames one by one adds up their pings and consumed bytes in order |
| WsHandshake.HeaderFoldAppend | internal/task/service.go:288-303 | reading one more header line folds its field into the headers read so far |
| Auth.Lookup | internal/auth/service.go:175-178 | a store read succeeds exactly for a present, non-blank value, and returns that value |
| Auth.LookupAfterSet | internal/auth/service.go:134 | a stored non-blank value reads back; every other key reads as before |
| Auth.LookupAfterDelete | internal/auth/service.go:168 | a deleted key reads as missing; every other key reads as before |
| Auth.NormalHint | internal/auth/service.go:191-194 | the hint trimmed and lowered; "unknown" for a blank hint; never empty |
| Auth.BlankHintUnknown | internal/auth/service.go:191-196 | a blank hint falls in the "unknown" case |
| Auth.HintOf | internal/auth/service.go:196-215 | the hint case: signature, unknown, apikey-only or other, each exactly when the normal hint says so |
| Auth.ChooseHeaders | internal/auth/service.go:196-225 | each mode comes with its own headers: bearer with the token, api-key with the bare non-blank key, signature with the signature headers |
| Auth.Choose | internal/auth/service.go:196-225 | the decision for a selected project from the hint case, the signature headers, the token and the key; its results are stated by ChooseHeaders and the Service lemmas below |
| Auth.Service.constructor | internal/auth/service.go:79-91 | a service over an empty credential store |
| Auth.Service.SaveBearerToken | internal/auth/service.go:130-135 | a blank token is refused and the store is unchanged; otherwise it is stored |
| Auth.Service.LoadBearerToken | internal/auth/service.go:138-144 | the stored token, or "" when the lookup fails |
| Auth.Service.Logout | internal/auth/service.go:147-153 | the token is removed and the call always succeeds |
| Auth.Service.SaveProjectSecret | internal/auth/service.go:156-161 | a blank key or secret is refused and nothing changes; otherwise exactly that secret is stored |
| Auth.Service.DeleteProjectSecret | internal/auth/service.go:164-172 | a blank key is refused; otherwise the secret is removed and the call succeeds |
| Auth.Service.TrySignature | internal/auth/service.go:228-240 | headers exactly when a non-blank secret is stored and the key is non-blank: x-api-key, x-nonce and x-signature = sign(key, secret, nonce) |
| Auth.Service.HasProjectSecret | internal/auth/service.go:175-178 | true exactly when a non-blank secret is stored for the key |
| Auth.Service.BuildHeaders | internal/auth/service.go:181-226 | the mode and headers for a project or none; stated by HeadersMatchMode, NoProject, SignatureWins, SignatureFallback, ApiKeyOnlyProject and FallbackOrder |
| Auth.Service.HeadersMatchMode | internal/auth/service.go:181-226 | every success carries exactly its mode's headers: bearer token, bare key, or the signature headers over the stored secret |
| Auth.Service.NoProject | internal/auth/service.go:184-189 | with no project: bearer auth when a token is stored, else the no-project error |
| Auth.Service.SignatureWins | internal/auth/service.go:196-199 | for every hint except apikey-only (signature, unknown or any other), a stored secret and a non-blank key give signature mode |
| Auth.Service.SignatureFallback | internal/auth/service.go:200-205 | a "signature" project without a usable secret gets bearer auth if a token exists, else the missing-secret error |
| Auth.Service.ApiKeyOnlyProject | internal/auth/service.go:208-213 | apikey-only uses the key alone, and fails when it is blank |
| Auth.Service.FallbackOrder | internal/auth/service.go:215-225 | without a usable secret, unknown and other hints try the token, then the non-blank key, then fail |
| Api.NewClient | internal/api/client.go:32-42 | a blank base URL becomes https://api.wiro.ai/v1; the result is the URL without its trailing slashes and does not end in '/' |
| Api.Endpoint | internal/api/client.go:44-52 | http:// and https:// paths are kept; any other path goes under the base URL, after exactly one '/' |
| Api.IsAbsolute | internal/api/client.go:45 | a path starting "http://" or "https://", the test Endpoint keeps such paths by |
| Api.DefaultEndpoint | internal/api/client.go:17 | on the default client a relative path becomes https://api.wiro.ai/v1/ + path |
| Config.DefaultOutputDir | internal/config/config.go:44-46 | the default output directory names wiro-outputs and is neither empty nor the legacy ./wiro-outputs |
| Config.Find | internal/config/config.go:137-144 | the first index whose name or API key is the selector; none when no entry has it |
| Config.KeyIndex | internal/config/config.go:148-149 | the first index with the given API key; none when there is none |
| Config.Merge | internal/config/config.go:150-155 | the API key is kept; name and hint are replaced only by non-empty new values |
| Config.Upserted | internal/config/config.go:147-160 | the profile list after an upsert; stated by UpsertExisting, UpsertNew, UpsertFindable and UpsertIdempotent |
| Config.UpsertExisting | internal/config/config.go:148-157 | an existing key keeps the length, merges into the first entry with that key, and changes no other entry |
| Config.UpsertNew | internal/config/config.go:159 | a new key appends the profile, so the length grows by one |
| Config.UpsertFindable | internal/config/config.go:137-160 | after an upsert the profile is found by its API key |
| Config.UpsertIdempotent | internal/config/config.go:147-160 | upserting the same profile twice equals upserting it once |
| Config.Config.constructor | internal/config/config.go:34-42 | default config: no default project, no profiles, watching on, the default output directory |
| Config.Config.MigrateOutputDir | internal/config/config.go:104-106 | an empty or legacy output directory becomes the default; any other is kept |
| Config.Config.FindProject | internal/config/config.go:137-144 | returns Find(projects, selector): the first matching entry by name or API key |
| Config.Config.UpsertProject | internal/config/config.go:147-160 | the profile list becomes exactly Upserted(old list, p) |
| Sorting.LexTotal | internal/model/service.go:44-48 | string order: of two different strings exactly one is less |
| Sorting.LexTransitive | internal/model/service.go:44-48 | string order is transitive |
| Sorting.Insert | internal/model/service.go:44-48 | insertion keeps the list sorted and adds exactly the element |
| Sorting.SortBy | internal/project/service.go:72-74 | sort.Slice by a string key: sorted, and a permutation of the input |
| Sorting.LexIrreflexive | internal/model/service.go:44-48 | no string is less than itself |
| Sorting.LexLeTransitive | internal/project/service.go:72-74 | "not greater" is transitive, so the sorted order is consistent |
| Models.EffectiveLimit | internal/model/service.go:23-25 | the limit sent is the given one when positive, else 50; never zero |
| Models.ListBody | internal/model/service.go:26-35 | exactly the keys start, limit, sort, order and summary, plus search exactly when the query is not blank; start 0, the effective limit in decimal, sort by id descending, summary on, the search trimmed |
| Models.List | internal/model/service.go:40-49 | a failed reply with errors reports the first one; otherwise the tools, sorted by lowered "owner/project", and a permutation of the reply's tools |
| Models.Detail | internal/model/service.go:62-68 | a failed reply with errors fails with its first error; otherwise success exactly when the reply holds a tool, and then the first tool; a reply without tools is "not found" for owner/slug |
| Models.Having | internal/model/service.go:77-81 | the kept items all have the requested advanced flag, and there are no more of them than items |
| Models.HavingAppend | internal/model/service.go:75-83 | filtering distributes over concatenation, so the groups can be filtered one after another |
| Models.HavingSplit | internal/model/service.go:77-81 | the quick and advanced items together are exactly all the items, counted with repetition |
| Models.Flattened | internal/model/service.go:71-88 | the list FlattenItems returns; stated by FlattenedMeaning |
| Models.HavingAdvanced | internal/model/service.go:77-78 | the advanced list is non-empty exactly when some item is advanced |
| Models.CollectGroup | internal/model/service.go:76-82 | one group's pass appends its quick items to quick and its advanced items to advanced, in order |
| Models.FlattenItems | internal/model/service.go:72-88 | the result is the quick items, followed by the advanced ones when asked |
| Models.FlattenedMeaning | internal/model/service.go:71-88 | without advanced items: only quick items; with them: a rearrangement of all items, the quick ones first as a prefix and advanced ones after |
| Models.AllItemsNext | internal/model/service.go:75-76 | the items up to a group are those before it followed by its own |
| Models.AllItemsHas | internal/model/service.go:75-76 | every item of every group appears in the flattened list |
| Projects.ResolveSelected | internal/project/service.go:83-91 | a non-blank selector is looked up; otherwise a non-blank default project is; otherwise nothing is selected |
| Projects.AddUnseen | internal/project/service.go:35-41 | the loop over one reply appends exactly the projects Collect appends, and the seen set stays the set of listed keys |
| Projects.Collect | internal/project/service.go:35-41 | the deduplicating append; stated by CollectExtends and CollectKeys |
| Projects.AccountList | internal/project/service.go:29-43 | the account reply's projects exactly when a token is stored and the call succeeded; nothing otherwise |
| Projects.ListHybrid | internal/project/service.go:25-80 | an error exactly when no project was gathered; otherwise the gathered projects, sorted by lowered name, as a permutation |
| Projects.CollectExtends | internal/project/service.go:35-41 | deduplication keeps the accumulator as a prefix, keeps keys distinct, and adds only members of the reply with unseen keys |
| Projects.CollectKeys | internal/project/service.go:35-41 | after deduplication every key of the reply is listed |
| Projects.ProfileStepExtends | internal/project/service.go:46-69 | a profile adds nothing unless its key is non-blank, its headers build and its call lists projects; what it adds is from that reply, with unseen keys |
| Projects.ProfileStep | internal/project/service.go:47-69 | what one profile adds; stated by ProfileStepExtends |
| Projects.Profiles | internal/project/service.go:46-70 | the profile phase; stated by ProfilesExtend |
| Projects.FromProfileHead | internal/project/service.go:46-69 | a project listed by the first usable profile's reply counts as coming from the profiles |
| Projects.FromProfileTail | internal/project/service.go:46 | a project coming from later profiles comes from the whole list |
| Projects.PrefixKeys | internal/project/service.go:36-39 | a key seen in an earlier list stays seen |
| Projects.ProfilesExtend | internal/project/service.go:46-70 | the profile phase keeps what was gathered before as a prefix, keeps keys distinct, and adds only projects some usable profile's reply listed |
| Projects.GatheredMeaning | internal/project/service.go:29-70 | the gathered list repeats no key, starts with the account token's deduplicated projects, and every later project came from a profile's call with a key the account list lacks |
| Projects.DistinctMembers | internal/project/service.go:36-39 | in a list of distinct keys a key names one project |
| Projects.DistinctOnce | internal/project/service.go:36-39 | in a list of distinct keys no project occurs twice |
| Projects.PermDistinct | internal/project/service.go:72-74 | sorting keeps the keys distinct |
| Projects.PermMembers | internal/project/service.go:72-74 | sorting neither adds nor drops a project |
| Projects.ListHybridMeaning | internal/project/service.go:25-80 | the listed projects repeat no key; a project whose key the account call returned is the account call's; every project came from the account call or a usable profile |
| Run.PromptFromInputs | internal/cli/run.go:240-253 | the exact "prompt" key's first value wins; otherwise the first value of some key naming the prompt up to case and spaces; "" when no key does; always trimmed |
| Run.ScanPromptKeys | internal/cli/run.go:247-252 | the map loop finds a key naming the prompt exactly when one exists, and returns its first value trimmed |
| Run.ExactPromptFound | internal/cli/run.go:244-245 | the exact "prompt" key is one of the keys naming the prompt, so the early return agrees with the loop |
| Run.ExactPromptKey | internal/cli/run.go:248 | "prompt" trimmed and lowered is "prompt" |
| Run.DisplayProject | internal/cli/run.go:358-366 | "account" for no profile; the API key for a blank name; otherwise exactly the name, " (", the API key and ")" |
| Run.HasAdvancedFields | internal/cli/run.go:347-356 | true exactly when some item of some group is advanced |
| Run.AdvancedLengthens | internal/cli/run.go:347-356 | a tool has advanced fields exactly when asking for them lengthens the flattened parameter list |
| Run.WatchPrefix | internal/cli/run.go:369-377 | the tag is one of the four, and "[watch]" exactly for a source other than ws, poll and system |
| Run.WatchLines | internal/cli/run.go:368-387 | nothing for a blank type; else the tagged type; a second line exactly for a warning, output or error with non-blank text, indented and cut to 180 characters |
| Run.FirstMatch | internal/cli/run.go:269-274 | the first project whose name or API key is the selector; none when there is none |
| Run.Candidates | internal/cli/run.go:256-265 | the listed projects; when listing fails, the saved profiles as projects, in order; the listing error when there are none |
| Run.AsProject | internal/cli/run.go:262-264 | a saved profile listed as a project with the same name, API key and auth method |
| Run.ChooseProject | internal/cli/run.go:267-304 | a selector must match and then wins; else the default project's match; else the sole project; else an error outside a session, the user's pick inside one, and "no project selected" for no pick |
| Run.NonInteractiveChoice | internal/cli/run.go:267-300 | outside a session the chosen project is named by the selector or the default project, or is the only one |
| Run.AdoptNew | internal/cli/run.go:305-310 | a chosen project without a profile is saved as given, at the end of the list |
| Run.AdoptExisting | internal/cli/run.go:311-317 | a chosen project with a profile updates only that profile, taking its non-empty name and auth method |
| Run.Adopted | internal/cli/run.go:305-317 | the profile list after a project is chosen; stated by AdoptNew and AdoptExisting |
| Run.AdoptChosen | internal/cli/run.go:305-319 | the profiles become Adopted(old profiles, chosen), the chosen API key becomes the default, the preferences stay |
| Run.ResolveProject | internal/cli/run.go:255-322 | the result follows Candidates then ChooseProject; a failure changes no profile and no default; a success adopts the chosen project and makes it the default |
| Run.RecoveryApplies | internal/cli/run.go:389-399 | recovery proceeds exactly for a selected profile in an interactive session whose error mentions both missing-secret phrases |
| Run.MentionsMissingSecret | internal/cli/run.go:396-399 | the lowered, trimmed error text contains both "requires signature auth" and "api secret is missing" |
| Run.ContainsLower | internal/cli/run.go:396 | lowering a string keeps each of its substrings, lowered |
| Run.MessageTrimmed | internal/auth/service.go:204 | the missing-secret message has no surrounding space |
| Run.MessageHasSignaturePhrase | internal/auth/service.go:204 | the lowered missing-secret message contains "requires signature auth" |
| Run.MessageHasSecretPhrase | internal/auth/service.go:204 | the lowered missing-secret message contains "api secret is missing" |
| Run.MentionsBoth | internal/cli/run.go:396-397 | a message whose trimmed, lowered text holds both phrases passes the test |
| Run.SecretMessageRecognised | internal/cli/run.go:396-399 | the auth service's missing-secret error passes the recovery test, for every API key |
| Run.MissingSecretRecovers | internal/cli/run.go:386-399 | a selected profile in an interactive session whose headers fail with the auth service's missing-secret error, for any key, goes on to recovery |
| Output.Compact | internal/output/output.go:74-83 | at most n characters; the trimmed text when it fits; otherwise its first n-3 characters and "..." (or its first n when n <= 3) |
| Output.Cur | internal/output/output.go:171-175 | the word being read holds only lowered letters and digits |
| Output.Done | internal/output/output.go:176-178 | every completed word is non-empty and holds only lowered letters and digits |
| Output.EffectiveMaxWords | internal/output/output.go:165-167 | the word limit is positive: the given one, or 2 when it is not positive |
| Output.Slug | internal/output/output.go:161-164 | a blank prompt gives the empty slug |
| Output.PromptSlug | internal/output/output.go:160-193 | the scan with its early stop computes Slug(prompt, maxWords), the join of the first maxWords lowered words |
| Output.ScanWords | internal/output/output.go:169-183 | the loop's words are the words completed so far; when it stops early there are exactly maxWords of them, else fewer, with the unfinished word beside them |
| Output.ScanStep | internal/output/output.go:171-182 | a letter or digit extends the current word, lowered; any other character completes a non-empty current word |
| Output.WordsAfterScan | internal/output/output.go:184-186 | appending the unfinished word when there is room gives exactly the first maxWords words of the prompt |
| Output.WordsWhenFull | internal/output/output.go:179-181 | words completed up to the early stop are the first maxWords words |
| Output.DoneGrows | internal/output/output.go:176-178 | reading more of the prompt never takes back a completed word |
| Output.CollapseShaped | internal/output/output.go:158-190 | the pattern replacement leaves [a-z0-9-] with no two '-' in a row, ending in '-' exactly when the input ends outside [a-z0-9] |
| Output.SliceBody | internal/output/output.go:191 | a piece of a slug body is still a slug body |
| Output.TrimShaped | internal/output/output.go:191 | trimming '-' from both ends of a slug body gives a slug: no '-' at either end |
| Output.SlugShape | internal/output/output.go:160-193 | every slug consists of [a-z0-9] words joined by single '-', with no '-' at either end |
| Output.ReadWord | internal/output/output.go:171-175 | a run of letters and digits extends the current word and completes none |
| Output.ReadSeparator | internal/output/output.go:176-178 | a separator completes the current word, if any, and starts an empty one |
| Output.JoinShaped | internal/output/output.go:188 | joining non-empty [a-z0-9] words with '-' gives a slug, non-empty when there are words |
| Output.CollapseSlug | internal/output/output.go:189-190 | the lowering and the pattern replacement leave a joined slug unchanged |
| Output.WordsClean | internal/output/output.go:169-186 | the kept words number at most maxWords and are non-empty runs of [a-z0-9] |
| Output.SlugIsJoin | internal/output/output.go:160-193 | the slug is the kept words joined by '-', and splitting it at '-' gives them back, so it has at most maxWords words |
| Output.OneWord | internal/output/output.go:171-178 | a word followed by a space completes exactly that word, lowered |
| Output.DoneOfTwo | internal/output/output.go:171-182 | two words each followed by a space complete exactly those two words |
| Output.WordsOfTwo | internal/output/output.go:179-181 | with the default limit, a prompt starting with two space-separated words keeps exactly those two |
| Output.FirstTwoWords | internal/output/output_test.go:9-14 | a prompt starting with two single-space-separated words slugs to those two, lowered and joined by '-' (as for "Simple cat on a table") |
| Output.TokensOfTwo | internal/output/output.go:171-186 | a prompt of exactly two words has those two lowered words |
| Output.TwoWordPrompt | internal/output/output.go:160-193 | a two-word prompt slugs to both words, lowered and joined by '-' (as for "simple cat") |
| Output.Ext | internal/output/output.go:129 | the extension is empty or a suffix of the path that starts with its only '.' and holds no '/' |
| Output.ExtOf | internal/output/output.go:129 | a name ending in '.' and a plain extension has that extension |
| Output.OutputExt | internal/output/output.go:128-145 | the name's extension first, then the URL path's, then the first MIME extension for the content type, then ".bin" |
| Output.UrlExt | internal/output/output.go:132-138 | the extension of the parsed URL path, trimmed, or "" for a blank or unparsable URL; used by OutputExt |
| Output.MimeExts | internal/output/output.go:139-143 | the MIME table's extensions for a non-blank content type, else none; used by OutputExt |
| Output.NameExtWins | internal/output/output.go:129-131 | a name with a plain extension decides the extension, whatever the URL and content type |
| Output.UrlExtUsed | internal/output/output.go:132-138 | an output without a name takes its URL path's extension |
| Output.MimeExtUsed | internal/output/output.go:139-143 | an output with neither name nor URL takes the first MIME extension of its content type |
| Output.BinFallback | internal/output/output.go:144 | with no name, URL or content type the extension is ".bin" |
| Output.OutputFilename | internal/output/output.go:147-156 | the name ends in "-", the index raised to at least 1, and outputExt; what precedes that is "output" when the prompt has no words, and otherwise a slug whose '-'-separated parts are exactly the prompt's first two words |
| Output.StemMeaning | internal/output/output.go:151-154 | the part before the index is never empty: "output" for a prompt without words, else a slug of the first two words |
| Output.StemThenTail | internal/output/output.go:155 | the formatted name splits back into the slug and the "-<index><ext>" tail |
| Output.FilenameIndexFloor | internal/output/output.go:148-150 | every index below 1 names the file as index 1 does |
| Output.FilenameWithoutWords | internal/output/output.go:151-154 | a prompt without letters or digits gives a name starting "output-" |
| Output.FilenameOfTwo | internal/output/output_test.go:29-35 | a two-word prompt and a name with a plain extension give "<word>-<word>-<index>.<ext>" (as for "simple cat", 1 and server-name.jpg) |
| CliHelpers.ParseModelArg | internal/cli/helpers.go:43-49 | on success two non-empty, slash-free parts whose join with '/' is the trimmed argument; the error carries the argument |
| CliHelpers.ParseModelArgComplete | internal/cli/helpers.go:43-49 | every trimmed "owner/model" with two non-empty, slash-free parts parses to exactly those parts |
| CliHelpers.Pairs | internal/cli/helpers.go:51-63 | parsing succeeds exactly when every entry has its first '=' after index 0 |
| CliHelpers.AllPairsSnoc | internal/cli/helpers.go:53-56 | all entries are pairs exactly when all but the last are and the last is |
| CliHelpers.PairsError | internal/cli/helpers.go:55-56 | the error names the first entry that is not a pair |
| CliHelpers.PairsValues | internal/cli/helpers.go:58-60 | on success a key is present exactly when some entry gives it a value, and it maps to all of its values in input order |
| CliHelpers.PairsStep | internal/cli/helpers.go:53-61 | one more pair appends its untrimmed value to its trimmed key's list |
| CliHelpers.ParseKeyValuePairs | internal/cli/helpers.go:51-63 | the loop with its early error return computes Pairs(values) |
| CliHelpers.Wrap | internal/cli/helpers.go:68-70 | one wrapped value per given value |
| CliHelpers.WrapIndex | internal/cli/helpers.go:69-74 | each value becomes a Value entry, or a FilePath entry for a file source |
| CliHelpers.WrapSnoc | internal/cli/helpers.go:68-70 | wrapping one value more appends its entry |
| CliHelpers.AppendValues | internal/cli/helpers.go:68-70 | the inner loop appends every value of the key, wrapped and in order, and leaves the map alone when there are none |
| CliHelpers.AddAll | internal/cli/helpers.go:67-71 | whatever order the keys are visited in, each key ends with its old entries followed by the source's wrapped values; present exactly when it was or the source gives it a value |
| CliHelpers.AddStep | internal/cli/helpers.go:67-71 | visiting one more key keeps the loop invariant of AddAll |
| CliHelpers.MergeParamSources | internal/cli/helpers.go:65-83 | each key gets its text values, then its file paths, then its URL values, so the counts add up; a key is present exactly when some source gives it a value |
| CliHelpers.ValidateRequired | internal/cli/helpers.go:276-287 | no error exactly when no required or prompt item lacks values; otherwise the error names the first such item |
| CliHelpers.IsPromptField | internal/cli/helpers.go:698-700 | the trimmed ID is "prompt" in any case |
| CliHelpers.MissingRequired | internal/cli/helpers.go:278-284 | a required or prompt item with no values, the item ValidateRequired reports |
| CliHelpers.CopyInputs | internal/cli/helpers.go:247-250 | the copy holds every key of the preset with its values, so it equals the preset |
| CliHelpers.BuildNonInteractiveInputs | internal/cli/helpers.go:246-255 | the preset itself exactly when no required or prompt item lacks values; otherwise an error naming the first such item |
| CliHelpers.KindOf | internal/cli/helpers.go:258-273 | text exactly for textarea and text, select exactly for select and selectwithcover, raw exactly for every name outside the table |
| CliHelpers.MapParameterKindNormal | internal/cli/helpers.go:258 | the kind ignores case and surrounding white space |
| CliHelpers.KindTable | internal/cli/helpers.go:259-272 | each row of the kind table, and raw for an unknown name |
| CliHelpers.MapParameterKind | internal/cli/helpers.go:257-274 | the kind of a type name; stated by MapParameterKindNormal and KindTable |
| CliHelpers.CsvPieces | internal/cli/helpers.go:319-325 | the kept pieces are non-empty and trimmed, and no more than the parts |
| CliHelpers.SplitCSV | internal/cli/helpers.go:317-327 | the trimmed, non-empty comma-separated pieces in order, each free of commas |
| CliHelpers.CsvStep | internal/cli/helpers.go:320-324 | one more part adds its trimmed text exactly when that is not empty |
| CliHelpers.SplitNoComma | internal/cli/helpers.go:318 | no piece of a comma split has a comma |
| CliHelpers.CsvNoComma | internal/cli/helpers.go:320-324 | trimming and dropping keep pieces comma-free |
| CliHelpers.CsvRoundTrip | internal/cli/helpers.go:317-327 | trimmed, non-empty, comma-free pieces joined by ',' split back into themselves |
| CliHelpers.CsvKeeps | internal/cli/helpers.go:320-324 | pieces already trimmed and non-empty are kept as they are |
| CliHelpers.LooksURLNormal | internal/cli/helpers.go:329-332 | the URL test ignores case and surrounding white space |
| CliHelpers.LooksURLHttps | internal/cli/helpers.go:329-332 | any https:// string without trailing white space looks like a URL |
| CliHelpers.LooksURL | internal/cli/helpers.go:329-332 | the trimmed, lowered value starts "http://" or "https://"; stated by LooksURLNormal and LooksURLHttps |
| CliHelpers.Short | internal/cli/helpers.go:382-391 | the trimmed text when it fits; otherwise exactly max characters, ending in "..." when max > 3 and the plain cut when not |
| CliHelpers.Collapse | internal/cli/helpers.go:632-634 | the laid-out text has no newline and no carriage return |
| CliHelpers.FitMenuLine | internal/cli/helpers.go:631-643 | at most the width, raised to 8, and one line; the collapsed text when it fits, else its cut with "..." |
| CliHelpers.CutKeepsOut | internal/cli/helpers.go:642 | cutting and adding "..." adds no character but '.', and gives width characters |
| CliHelpers.Atoi | internal/cli/helpers.go:520 | a parsed number lies within int64; a run of digits that fits parses to its value |
| CliHelpers.DigitsValueSnoc | internal/cli/helpers.go:520 | one more digit multiplies the value by ten and adds the digit |
| CliHelpers.DigitsOfNat | internal/cli/helpers.go:515-520 | the decimal digits of n have the value n |
| CliHelpers.AtoiItoa | internal/cli/helpers.go:515-520 | strconv.Atoi undoes strconv.Itoa, so the shown default reads back |
| CliHelpers.DefaultIndex | internal/cli/helpers.go:499-501 | the default is kept when it names an option, else it is 0; always an option |
| CliHelpers.NumericSelect | internal/cli/helpers.go:520-524 | success exactly when the trimmed answer is a number from 1 to n, and then that number minus one; else an invalid-selection error carrying the answer |
| CliHelpers.NumericDefault | internal/cli/helpers.go:515-524 | an empty answer takes the shown default d+1 and selects option d |
| CliHelpers.ModSmall | internal/cli/helpers.go:594-597 | the remainder of an index below 2n is the index, or the index less n |
| CliHelpers.Up | internal/cli/helpers.go:594-613 | moving up goes to the previous option, from the first to the last |
| CliHelpers.Down | internal/cli/helpers.go:597-616 | moving down goes to the next option, from the last to the first |
| CliHelpers.UpDown | internal/cli/helpers.go:594-597 | moving up and down undo each other |
| CliHelpers.ArrowKeys | internal/cli/helpers.go:573-628 | every key sequence that ends in a pick picks an option in range |
| CliHelpers.ArrowExamples | internal/cli/helpers.go:579-597 | Enter keeps the default; j then Enter moves one down, wrapping; k then j returns to the start |
| CliHelpers.SelectArrows | internal/cli/helpers.go:542-628 | the byte loop computes ArrowKeys from the default, so its pick is in range |
| CliHelpers.Select | internal/cli/helpers.go:495-508 | every pick is an option in range; no options is an error |
| CliHelpers.NumericFallback | internal/cli/helpers.go:510-525 | the numeric prompt only picks options in range |
| CliHelpers.SelectDefault | internal/cli/helpers.go:495-525 | outside a terminal, an empty answer picks the clamped default |
| CliHelpers.PromptSelect | internal/cli/helpers.go:495-508 | the arrow prompt when it is available and succeeds, else the numeric one; the pick is in range |

## Left out

- Network, HTTP and TLS: `PostJSON`, `PostMultipart`, `BuildMultipartPayload`, the TCP dial and `downloadFile` are not modelled. An API reply is an input, and the WebSocket peer's bytes are the connection's `incoming` stream.
- JSON encoding and decoding: request bodies are maps, and replies are datatypes.
- Cryptography: SHA-1 and base64 in `wsAccept`, and HMAC-SHA256 in `ComputeSignature`, are function parameters.
- Randomness and clocks: the masking keys, the `Sec-WebSocket-Key` and the time-based nonce are parameters.
- `WatchTask` (internal/task/service.go:106-209) is left out: it is concurrent, with goroutines, channels, `sync.Once`, a ticker and the polling fallback. Only the status classifier and the WebSocket steps it uses are modelled.
- `WriteJSON` and the task service's `Run`, `Cancel` and `Kill` are left out: they are JSON encoding and plain API calls. Only `Detail`'s choice of body key is modelled.
- The keychain and files: `Load`/`Save` of config.json and state.go, and the keychain store, are left out. The credential store is a class over a map, and Load is reduced to its output-directory migration.
- The terminal: `stty`, rendering, `terminalWidth`, `isInteractiveSession`, `promptInput`/`promptPassword`/`promptSecret`/`promptConfirm` I/O and `sanitizePromptLine`'s regular expression. The interactive flag, the typed line and the typed key bytes are inputs.
- `buildInteractiveInputs`: this is an interactive form, so only its non-interactive twin `buildNonInteractiveInputs` is modelled.
- tryRecoverMissingProjectSecret: only its message test is modelled (internal/cli/run.go:389-399). The secret prompt and save (lines 401-418) are I/O.
- `ensureFirstRunSetup`, `runCommand`, `runInteractive`, `resolveModel` and the CLI dispatch are left out: they are flag parsing and I/O sequencing between modelled steps.
- `DownloadOutputs` and the `Print*` functions are left out: they write files and standard output.
- Text.ToLower: `unicode.ToLower`, `unicode.IsLetter` and `unicode.IsNumber` are restricted to ASCII, so the slug and the case-insensitive comparisons are exact for ASCII text only.
- Lengths are counted in characters, not UTF-8 bytes (`len(v)` in `short`/`compact`), so they agree with Go for ASCII text.
- Messages quoted with `%q` are shown with plain double quotes.
- Output.Ext: `filepath.Ext` is modelled on clean paths. `url.Parse` and `mime.ExtensionsByType` are function parameters.
- Sorting.SortBy: `sort.Slice` is not stable. The model sorts by insertion and proves only sortedness and permutation, which every `sort.Slice` outcome has. The order among equal keys is not pinned down.
- Go map iteration order (`mergeParamSources`, `promptFromInputs`) is an arbitrary choice (`:|`) in the loop. The contracts hold for every order.
- Output.Compact and CliHelpers.Short require a non-negative limit: the slice expression in Go panics for a negative one.
- Output.FirstTwoWords, Output.TwoWordPrompt and Output.FilenameOfTwo state the examples of internal/output/output_test.go for every pair of words and every plain extension, rather than for the literal strings.
- Output.NameExtWins, Output.UrlExtUsed and Output.MimeExtUsed state the output_test.go extension examples for every name, URL and content type of that shape.
- WsConn.ReadTextSpec: its own contract only bounds the bytes consumed. Its behaviour is stated by WsConn.ReadTextStep and WsConn.ReadTextStop.
- WsConn.WsConn.WriteFrame: socket writes always succeed here, so the errors of rand.Read for the mask (internal/task/service.go:386-388) and of conn.Write for the header and the payload (396-400) are not modelled.
- WsConn.WsConn.Close: closing always succeeds here. The error of conn.Close (internal/task/service.go:327-332) is not returned; its one caller defers the call and ignores the result (line 159).
- WsHandshake.FieldOf: header names are lowered in ASCII only. Go's strings.ToLower lowers every rune, so a name that spells its "K" with the Kelvin sign (U+212A, bytes E2 84 AA) names sec-websocket-accept in Go but not here.
- WsHandshake.HeaderLines, and through it WsHandshake.Handshake, WsHandshake.ReadHeaders, WsHandshake.CheckReply, WsHandshake.CheckHeaders and WsHandshake.DialWS: these carry FieldOf's ASCII-only lowering of header names. Reply lines are trimmed byte for byte as Go trims them.
- WsConn.WsConn.ReadText: the pong written for a ping always succeeds here, so the pong write error that ends ReadText (internal/task/service.go:354-356) is not modelled.
- CliHelpers.ArrowKeys: its own contract states only that a pick is in range. The key-by-key behaviour is its definition, with CliHelpers.ArrowExamples and CliHelpers.UpDown beside it.
- The Windows branch and the `stty` failures of `promptSelectArrows`: these are modelled as "no key bytes available" (`keys == None`), which falls back to the numeric prompt.
