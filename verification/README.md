# A model of alpmrpc

alpmrpc lets a native client call libalpm in a server process over one pipe. These modules
model its parts that carry state across calls, in Dafny, and prove what they promise.

| module | part |
|---|---|
| `OpenAddressing`, `Registry`, `HandleTable` | the server's handle table: two open-addressed indexes over one slot array, refining a map of ids with an ownership tree |
| `Callbacks` | the callback registrations on both sides, and their purge with a handle |
| `Json`, `JsonGrammar`, `JsonConforms`, `JsonRoundTrip`, `JsonUtf8`, `JsonWriter`, `JsonLayout`, `JsonReader`, `JsonDoc` | the JSON codec: the text as functions, a grammar of its own for sections 2 to 7 of RFC 8259 and section 3 of RFC 3629, the writer and reader as classes over growing buffers, the flat node array and the walks over it |
| `Frames`, `Protocol` | the messages as JSON texts, and calls and callbacks nested in each other as a step relation of two stacks |
| `ClientCache`, `Columns`, `Release` | what the client keeps: borrowed values live and detached, package fields by the column, and that a release retires the same on both sides |
| `Marshal`, `Params` | the meaning of the generated writers and readers, over every schema, and of handles and lists as parameters |
| `Invalidate` | the hooks around calls in which libalpm frees objects |
| `Gpgdir` | gpgme following the handle a call is for |
| `Framing` | length-prefixed frames over a stream that splits reads and writes |
| `Base64`, `Base64Bits` | bytes in strings, and the bits of both (section 4 of RFC 4648) |

Where the source changes state in place there is a class or an array with loops, each method
proved equal to a function of the old state, and the properties are proved of those
functions, over whole runs where they are about runs. Code that only computes is modelled
as functions.

Standing assumptions: allocation succeeds; sequence numbers stay below 2^40, roots below
2^23, request and callback numbers within 64 bits; an owner is nobody or a live object of a
higher kind (HANDLE over DB over PKG over CHANGELOG, with adopted records as leaves), a
handle is first filed with no owner, and a single id is dropped only when nothing is filed
under it; messages are of 64-bit numbers and C strings, nest less than 256 deep and fit a
64 MiB frame. These stand as `Room`, `GoodOwner` and `Legal` in `Registry`, and as `Passes`
in `Protocol`. Client keys are either for strings or not, and fields likewise, as the
generator has it; the model also says exactly what happens when they are not
(`ClientCache.InternKeepsKeysIff`, `ClientCache.StoreKeepsKeysIff`,
`Columns.WrongKindReadsNothing`).

Where the code and its comments differ, the model follows the code:

- `src/common/arpc_wire.c:177` writes the length and the count cut to 32 bits, so a buffer
  of 2^32 bytes and more is sent as its first few (`Framing.SentIsReceived`).
- `src/common/arpc_json.c:80-97` writes three bytes for a lone surrogate, which section 3 of
  RFC 3629 prohibits; for every other code point its bytes are that section's
  (`JsonUtf8.WellFormedUnlessSurrogate`, `JsonUtf8.LoneSurrogateComesThrough`).
- `src/server/arpc_gpgdir.c:25` says the next call reads a directory again after it was set.
  That fails if an error is raised on the handle first, as when a call's callback sets the
  directory and the call then fails (`Gpgdir.StaleAfterNestedSetter`);
  `Gpgdir.HandlerFindsGpgme` has the exact condition, over every run.
- `src/server/arpc_invalidate.c:165-187` drops what is filed under the dbs of an update. A
  package met only in a callback is filed under the handle (`tools/gen/emit.py:1508,1542`),
  and if the update frees it its id dangles: it is covered exactly when it is filed under
  one of the dbs (`Invalidate.PackageIsDoomedIff`, `Invalidate.MetInCallbackDangles`).
- A registration for the null handle is accepted by the server, and releasing null purges
  the client's function but not the server's bit (`src/server/arpc_server.c:245-251`,
  `Callbacks.NullStaysWanted`); for every other handle the two agree.

## Model

| member | source | states |
|---|---|---|
| `Registry.WalkSaturates` | src/server/arpc_server.c:131-143 | in a sound table an owner walk of 5 minus the level of its start sees everything any longer walk sees |
| `Registry.UnderIsBelow` | src/server/arpc_server.c:131-143 | the walk of depth 8 decides the unbounded relation "is, or is filed under" |
| `Registry.BelowIsChain` | src/server/arpc_server.c:131-143 | that relation is the one of a chain of owners leading from the one id to the other |
| `Registry.NoCycle` | src/server/arpc_server.c:131-183 | an owner chain never returns to where it started, and levels rise along it |
| `Registry.AncestorIsNearest` | src/server/arpc_server.c:202-215 | for any id and any tag, ARPC_H_NONE included, the depth-8 climb gives the one nearest object of that kind at or above the id; when there is none, or for ARPC_H_NONE, the ownerless top of the chain; and for an id that is not live, the id itself |
| `Registry.SubtreeIsRoot` | src/common/arpc_wire.h:40-48 | an id is under a handle exactly when its high bits are that handle's root |
| `Registry.HandleReleaseIsByRoot` | src/server/arpc_server.c:222-251 | dropping by owner chains from a handle leaves exactly the slots whose root differs, unchanged |
| `Registry.DropOwnerIsExact` | src/server/arpc_server.c:222-257 | drop_owner removes exactly the node and its descendants, drop_under exactly the strict descendants; survivors keep id, pointer, tag and owner |
| `Registry.OtherDropsAreExact` | src/server/arpc_server.c:239-276 | a single drop removes exactly that id, a drop by pointer and tag what is at or below the object filed so, a reset everything |
| `Registry.RefiledGoesWithItsOwner` | src/server/arpc_server.c:145-166 | an object filed again under a closer owner is dropped when that owner is |
| `Registry.FreshIdIsNew` | src/server/arpc_server.c:167-181 | a new id is nobody's, carries its owner's root or a root of its own, and stays below 2^63 |
| `Registry.PutIs` | src/server/arpc_server.c:145-183 | filing a filed object gives its id, and moves it exactly if the new owner is below the one it has; any other object gets a slot of its own with no release; nothing else changes |
| `Registry.AdoptIs` | src/server/arpc_server.c:185-192 | after adopting, the record's id is live and its slot owes exactly that release; nothing else changes |
| `Registry.PutKeepsForest` | src/server/arpc_server.c:145-183 | filing, and filing again under a closer owner, keeps the table sound: ids, roots, levels, one id per object |
| `Registry.AdoptKeepsForest` | src/server/arpc_server.c:185-192 | adopting a record keeps the table sound |
| `Registry.DropKeepsForest` | src/server/arpc_server.c:233-264 | dropping any set of ids that holds what its members own keeps the table sound, and spends each release once |
| `Registry.StepKeepsForest` | src/server/arpc_server.c:145-276 | every operation of the table keeps it sound |
| `Registry.RunKeepsForest` | src/server/arpc_server.c:145-276 | the table is sound in every state of every run |
| `Registry.NeverReissued` | src/server/arpc_server.c:167-181 | over a run an id that was gone or not yet given is never the id of a later object |
| `Registry.IdsAreForLife` | src/server/arpc_server.c:145-183 | an id names the same (pointer, tag) whenever it is live |
| `Registry.StaysGone` | src/server/arpc_server.c:239-276 | a dropped id never resolves again |
| `Registry.SameObjectSameId` | src/server/arpc_server.c:145-166 | filing an object that is still filed gives the id it has |
| `Registry.AdoptedIsReleasedOnce` | src/server/arpc_server.c:78-113 | over a run a record adopted at some step, and not again while it is there, has that release in its slot as long as that is live, and once it is gone, by any drop or reset, exactly one entry of what was released has that id, record and release |
| `Registry.OnlyAdoptedIsReleased` | src/server/arpc_server.c:185-192 | over a run whatever was released, or is owed, is a record some earlier step adopted with that release |
| `Registry.ReleasedExactlyOnce` | src/server/arpc_server.c:78-113 | over a run a slot that owes a release has had it run exactly once if it is gone and not at all while it is live |
| `OpenAddressing.FreeMeansAbsent` | src/server/arpc_server.c:44-67 | a probe that reaches an empty cell proves its key is nowhere in the table |
| `OpenAddressing.StoreKeepsChains` | src/server/arpc_server.c:44-72 | storing a key where its probe stopped breaks no other key's chain |
| `OpenAddressing.NotFullHasFree` | src/server/arpc_server.c:44-53 | a table that is not full has an empty cell, so every probe ends |
| `HandleTable.MaskIsRemainder` | src/server/arpc_server.c:37-53 | masking by a capacity that is a power of two is the remainder by it |
| `HandleTable.MaskIsNext` | src/server/arpc_server.c:44-67 | the probes' step, one more and masked, is the next cell around the table |
| `HandleTable.SlotFor` | src/server/arpc_server.c:44-53 | the probe by id ends, at the id's slot or at the empty one where it would go |
| `HandleTable.PtrFor` | src/server/arpc_server.c:55-67 | the probe by (pointer, tag) ends, at the entry whose slot is that object or at the empty one where it would go |
| `HandleTable.Store` | src/server/arpc_server.c:69-72 | a slot written and indexed keeps both indexes whole and adds exactly that object |
| `HandleTable.OneEntryPerSlot` | src/server/arpc_server.c:55-72 | every live slot has exactly one by-pointer entry |
| `HandleTable.Table.Find` | src/server/arpc_server.c:115-121 | find gives the slot holding the id, or none exactly when no slot does |
| `HandleTable.Table.FindPtr` | src/server/arpc_server.c:123-129 | find_ptr gives the slot of that pointer and tag, or none exactly when none is filed |
| `HandleTable.Table.IsUnder` | src/server/arpc_server.c:134-143 | the loop computes the bounded owner walk |
| `HandleTable.Table.AncestorOf` | src/server/arpc_server.c:202-215 | the loop computes the bounded climb |
| `HandleTable.Table.Get` | src/server/arpc_server.c:194-200 | an id resolves to its object exactly when it is live and of that tag, and to null otherwise |
| `HandleTable.Table.Rebuild` | src/server/arpc_server.c:78-113 | a rebuild keeps exactly the accepted slots in both new indexes and releases exactly the adopted ones it drops |
| `HandleTable.Table.Grow` | src/server/arpc_server.c:167-171 | growing drops nothing, releases nothing and brings the load below 3/4 |
| `HandleTable.Table.HandlePut` | src/server/arpc_server.c:145-183 | put on the arrays does what put does to the abstract table, and gives its id |
| `HandleTable.Table.Refile` | src/server/arpc_server.c:151-165 | a filed object moves on the arrays, in place, exactly when the new owner is below the one it has |
| `HandleTable.Table.HandleAdopt` | src/server/arpc_server.c:185-192 | adopting on the arrays does what it does to the abstract table, and leaves the record live under its id with that release |
| `HandleTable.Table.HandleDrop` | src/server/arpc_server.c:239-243 | dropping one id by rebuilding removes exactly its slot |
| `HandleTable.Table.HandleDropOwner` | src/server/arpc_server.c:245-251 | dropping an owner by rebuilding removes exactly it and what is under it |
| `Callbacks.DropOwner` | src/server/arpc_server.c:245-251 | and the owner's callback registrations are purged with it, unless it is null |
| `HandleTable.Table.HandleDropUnder` | src/server/arpc_server.c:253-257 | dropping under an owner by rebuilding removes exactly what is under it and not it |
| `HandleTable.Table.HandleDropPtr` | src/server/arpc_server.c:259-264 | dropping by pointer and tag removes exactly the object filed so and what is under it |
| `Callbacks.DropPtr` | src/server/arpc_server.c:259-264 | and purges the registrations of the id it was filed under |
| `HandleTable.Table.HandleReset` | src/server/arpc_server.c:266-276 | a reset runs what releases are owed and leaves no slot; sequence numbers go on |
| `Callbacks.Registrations.Purge` | src/server/arpc_callbacks.c:58-70 | the unlinking loop leaves every other handle's entries in order and none of this one's |
| `Callbacks.PurgedOf` | src/client/arpc_callbacks.c:58-70 | after a purge nothing is found for that handle, and for others what was |
| `Callbacks.WithOf` | src/server/arpc_callbacks.c:42-56 | after a find-or-create and a write the handle has what was written, the others what they had |
| `Callbacks.Wanted` | src/server/arpc_callbacks.c:72-76 | a callback is wanted exactly when its bit is set for the handle |
| `Callbacks.SetCallback` | src/server/arpc_callbacks.c:123-160 | the bit is set or cleared, and the call refused, with no bit changed, exactly when the handle is neither null nor a live handle |
| `Callbacks.CbRegister` | src/client/arpc_callbacks.c:92-105 | the function is kept whatever the server says, and the server told whether there is one |
| `Callbacks.RegisterIs` | src/client/arpc_callbacks.c:92-105 | a registration changes the function of that handle and kind, and the bit if the handle is null or live, to whether there is a function; and nothing else on either side |
| `Callbacks.ReleaseIs` | src/client/arpc_client.c:467-473 | the release of a live handle drops it and clears its functions and bits, and no others |
| `Callbacks.AcceptedUntilTaken` | src/server/arpc_server.c:222-264 | no operation of the table removes a handle but one that purges its registrations, and none brings one back |
| `Callbacks.StepKeeps` | src/client/arpc_callbacks.c:92-105 | every registration, release and table operation keeps the two sides in agreement |
| `Callbacks.SentIffTaken` | src/server/arpc_callbacks.c:72-76 | in every state of every run, for every id but null and every kind, the server sends a callback exactly when the id is a live handle and the client has a function for it |
| `Callbacks.LastRegistrationHolds` | src/client/arpc_callbacks.c:107-116 | over a run the function registered last for a handle and kind is the one found until the handle is released, and while it is live its callbacks are sent exactly if that is a function |
| `Callbacks.NullStaysWanted` | src/server/arpc_server.c:245-251 | for null a run leaves the server sending what the client has no function for |
| `Release.BorrowedGoWithTheirObjects` | src/client/arpc_client.c:451-473 | after a handle's release the client keeps a borrowed value exactly when the server keeps the object it came from |
| `Release.SlotsGoWithTheirPackages` | src/client/arpc_client.c:606-625 | after a handle's release the client keeps a package's place in a group exactly when the server keeps the package |
| `JsonConforms.AcceptsExactlyJson` | src/common/arpc_json.c:245-346 | for every text and value: the text parses to the value exactly when a grammar in literal bytes derives it for that value, its integers are of 64 bits and it nests at most 256 deep; the grammar is sections 2 to 7 of RFC 8259 less fractions and exponents, with leading zeros and lone surrogates let in |
| `JsonConforms.StandardIsAccepted` | src/common/arpc_json.c:245-346 | what is JSON by the standard's own grammar is accepted, within those limits, as what it says |
| `JsonConforms.PrintIsJson` | src/common/arpc_json.c:498-626 | what is written for any value is JSON for that value by the standard's own grammar |
| `JsonConforms.OneMeaning` | src/common/arpc_json.c:245-346 | no text is JSON for two values, within those limits |
| `JsonRoundTrip.RoundTrip` | src/common/arpc_json.c:245-346 | parsing what the writer wrote gives back the same tree, for every value of null, int64, NUL-free string, array and object, exactly when it nests at most 256 deep, and fails otherwise |
| `JsonRoundTrip.PrintIsInjective` | src/common/arpc_json.c:530-626 | values that print alike are the same value |
| `JsonRoundTrip.ReadsQuoted` | src/common/arpc_json.c:101-178 | the string reader undoes the string writer's escaping |
| `JsonRoundTrip.ReadsNumber` | src/common/arpc_json.c:283-320 | the number reader undoes the number writer over all of int64, LLONG_MIN included |
| `JsonRoundTrip.AcceptsExactlyInt64` | src/common/arpc_json.c:283-320 | a string of digits, leading zeros allowed, is accepted exactly when its value lies in [-2^63, 2^63-1], and read as that value |
| `JsonRoundTrip.LeadingZero` | src/common/arpc_json.c:291-299 | a leading zero changes no value |
| `JsonUtf8.Utf8IsReadBack` | src/common/arpc_json.c:80-97 | the bytes put for any code point below 0x110000, surrogates included, have a lead byte and as many continuations as it announces, carry exactly that code point, and are no more than it needs |
| `JsonUtf8.WellFormedUnlessSurrogate` | src/common/arpc_json.c:80-97 | they are well formed by section 3 of RFC 3629 exactly when the code point is no surrogate |
| `JsonUtf8.NoOtherBytes` | src/common/arpc_json.c:80-97 | every sequence well formed by that section is what is put for the code point it carries |
| `JsonUtf8.LoneSurrogateComesThrough` | src/common/arpc_json.c:146-162 | the escape of a lone surrogate is read as ED A0 80, which is not well formed |
| `JsonWriter.Writer.Grow` | src/common/arpc_json.c:430-453 | room for the bytes asked for and the NUL, the text so far unchanged |
| `JsonWriter.Writer.RawUnchecked` | src/common/arpc_json.c:462-467 | the unchecked append stays inside the buffer the caller grew, and appends exactly its bytes |
| `JsonWriter.Writer.StrEscaped` | src/common/arpc_json.c:530-575 | copying runs whole gives exactly the byte-at-a-time escaping, never past the buffer |
| `JsonWriter.Writer.I64` | src/common/arpc_json.c:597-620 | digits staged backwards and copied out are the number's decimal text |
| `JsonWriter.ReverseDigits` | src/common/arpc_json.c:604-610 | at most 19 digits fit the 24-byte stage, and they are the number's, last first |
| `JsonWriter.Writer.Sep` | src/common/arpc_json.c:488-496 | a comma exactly when a value came before |
| `JsonWriter.WriteValue` | src/common/arpc_json.c:498-626 | however calls nest, the one comma bit puts the separators where the text of the value has them |
| `JsonReader.Reader.NodeNew` | src/common/arpc_json.c:21-36 | one node more, the others and their order kept across growth |
| `JsonReader.Reader.StrPut` | src/common/arpc_json.c:40-57 | the string and a NUL at the end, everything before it kept where it was across growth |
| `JsonReader.Reader.HexFour` | src/common/arpc_json.c:66-78 | four hex digits' value, or -1 exactly when one is none |
| `JsonReader.Reader.CodePoint` | src/common/arpc_json.c:146-162 | a surrogate pair is one code point, a lone surrogate stands alone |
| `JsonReader.Reader.DecodeChars` | src/common/arpc_json.c:107-170 | the decoding loop never writes past its scratch buffer and computes the string's characters |
| `JsonReader.Reader.ParseString` | src/common/arpc_json.c:101-178 | accepts exactly what the string function reads, and appends its bytes to the string buffer |
| `JsonReader.Reader.ParseNumber` | src/common/arpc_json.c:283-320 | the unsigned accumulation with its overflow test accepts exactly the int64 numbers |
| `JsonReader.Reader.ParseValue` | src/common/arpc_json.c:245-322 | accepts exactly what the value function reads; on success its nodes come right after the old ones, lay the value out, and nothing old has moved |
| `JsonReader.Reader.ParseKids` | src/common/arpc_json.c:206-242 | the container loop links its kids in order under their keys |
| `JsonLayout.AppendKid` | src/common/arpc_json.c:226-232 | linking one kid more behind the last keeps the layout |
| `JsonLayout.KidIsLaid` | src/common/arpc_json.c:362-413 | the k-th kid stands where the sizes before it say, under its key, linked to the next |
| `JsonLayout.LinksGoForward` | src/common/arpc_json.c:206-242 | child and sibling links strictly increase and stay inside their value, so every walk ends |
| `JsonDoc.OneLinkIn` | src/common/arpc_json.c:206-242 | every node but the root is led to by exactly one link of one node |
| `JsonDoc.ParseDocument` | src/common/arpc_json.c:324-346 | a document is accepted exactly when the whole text is one value; its nodes and strings then hold that value, with every string and key offset turned into a pointer into the string buffer |
| `JsonDoc.AjFirst` | src/common/arpc_json.c:384-390 | the first kid, or -1 |
| `JsonDoc.NextIsNext` | src/common/arpc_json.c:392-396 | from the k-th kid the sibling link leads to the (k+1)-th, from the last to -1 |
| `JsonDoc.AjElem` | src/common/arpc_json.c:373-382 | the index-th kid of the walk, or -1 |
| `JsonDoc.AjCount` | src/common/arpc_json.c:398-407 | the number of kids |
| `JsonDoc.AjMember` | src/common/arpc_json.c:362-371 | the first member whose key, as a C string, is the one asked for, or -1 |
| `JsonDoc.AjI64` | src/common/arpc_json.c:409-413 | the number, or a boolean as 0 or 1, or the default |
| `JsonDoc.AjStr` | src/common/arpc_json.c:415-419 | for a string a pointer at which the whole of it stands, NUL-ended, and the caller's default otherwise |
| `Frames.FrameIsReadBack` | src/client/arpc_client.c:922-940 | every message is printed as a text that parses back to it |
| `Frames.FramesSay` | src/client/arpc_client.c:922-940 | the text of every message is JSON, by the standard's own grammar, for the object of its members under the names on the wire |
| `Frames.RequestIsRequest` | src/server/arpc_server.c:572-577 | a request has a method and no "cb", and its id, method and params are read as sent |
| `Frames.ReplyIsReply` | src/client/arpc_client.c:901-906 | a reply has neither "cb" nor "method", its id is read as sent, and result or error is told apart |
| `Frames.FailureIsReported` | src/client/arpc_client.c:1040-1047 | the code and message the client reports are the server's |
| `Frames.CallbackIsCallback` | src/client/arpc_callbacks.c:148-153 | a callback is known by "cb", and its kind, seq, handle and args are read as sent |
| `Frames.AnswerIsAnswer` | src/server/arpc_callbacks.c:108-119 | an answer has no "method", and its cbseq and return value are read as sent |
| `Frames.PrintHasNoNul` | src/server/main.c:231-236 | printed text has no NUL, so the C length of a frame is its length |
| `Frames.LookupIsFirstKey` | src/common/arpc_json.c:362-371 | the lookup these use is the member walk's |
| `Frames.SpliceMember` | src/common/arpc_json.c:481-486 | splicing another writer's text gives the same text as writing the value it shows |
| `Frames.WriteRequest` | src/client/arpc_client.c:922-940 | the request's text |
| `Frames.WriteResult` | src/server/arpc_server.c:642-657 | the reply's text with the handler's object spliced in is the text of the whole reply |
| `Frames.WriteError` | src/server/arpc_server.c:512-524 | the error reply's text |
| `Frames.WriteCallback` | src/server/arpc_callbacks.c:89-100 | the callback's text with its arguments spliced in |
| `Frames.WriteAnswer` | src/client/arpc_callbacks.c:168-173 | the answer's text |
| `Protocol.StepKeepsInv` | src/client/arpc_client.c:879-918 | every step of either side keeps: nothing in flight and equal stacks, or one message in flight and stacks one message apart |
| `Protocol.RunKeepsInv` | src/server/main.c:213-275 | that holds in every state of every run, however deep calls and callbacks nest |
| `Protocol.NeverOutOfStep` | src/client/arpc_client.c:1034-1039 | over every run at most one frame is in flight, and the malformed-frame, reply-id and cbseq mismatch branches are never taken |
| `Protocol.OneSideMoves` | src/server/main.c:204-212 | in every reachable state exactly one side can move: no deadlock and no race |
| `Protocol.FramesArrive` | src/common/arpc_wire.c:177-210 | the frame in flight has no NUL, and comes whole through the byte stream whatever follows it |
| `Protocol.StacksMirror` | src/server/main.c:204-250 | between frames the two stacks are equal; with a frame in flight they differ by what it does |
| `Protocol.TranscriptNests` | src/server/main.c:204-212 | whatever was said over a run is properly nested |
| `Protocol.ReplyClosesItsRequest` | src/server/main.c:204-212 | in a nested transcript each reply closes the request of its id, which has been open throughout, and restores what was open before it |
| `Protocol.AnswerClosesItsCallback` | src/server/arpc_callbacks.c:108-119 | in a nested transcript each answer closes the callback of its seq and restores what was open before it: answers unwind innermost first |
| `Protocol.OneReplyEach` | src/client/arpc_client.c:930-939 | over a run no two replies are to one request id |
| `Protocol.ClientReceiveSettles` | src/client/arpc_client.c:879-918 | what the client receives it takes for what the server sent |
| `Protocol.ServerReceiveSettles` | src/server/main.c:213-250 | what the server receives, nested or not, it takes for what the client sent, whatever the default |
| `Protocol.OtherReplyIsRefused` | src/client/arpc_client.c:1034-1039 | a reply to another request is taken for nobody's and ends the connection |
| `Protocol.OtherAnswerIsRefused` | src/server/arpc_callbacks.c:108-119 | an answer to another callback is not taken: whoever asked gets the default |
| `Protocol.GarbageIsRefused` | src/client/arpc_client.c:889-896 | a frame the reader does not accept is no message on either side |
| `ClientCache.StepKeeps` | src/client/arpc_client.c:360-493 | every cache operation keeps the invariant, and nothing held goes but by a purge of its owner or root |
| `ClientCache.RunKeepsInv` | src/client/arpc_client.c:360-493 | over every run each value is in exactly one of live, detached and released, with one live entry per key and one string per owner, key and text |
| `ClientCache.SameTextSamePointer` | src/client/arpc_client.c:360-395 | interning the same text under the same owner and key gives the same pointer through any detaches and changes of value, and the purges of any other owner or root |
| `ClientCache.HeldUntilPurged` | src/client/arpc_client.c:425-493 | what was held stays held and unreleased as long as neither its very owner nor its owner's root is purged |
| `ClientCache.ReleasedOnce` | src/client/arpc_client.c:299-305 | over a run each value is released at most once, and is held until then |
| `ClientCache.InternKeeps` | src/client/arpc_client.c:360-395 | an intern hands out an entry that says the text, and loses nothing |
| `ClientCache.StoreKeeps` | src/client/arpc_client.c:405-422 | storing hands out the live entry, even one cached while the call was in flight, and then releases the newcomer; it loses nothing |
| `ClientCache.PurgeKeeps` | src/client/arpc_client.c:425-473 | the purge of an owner leaves exactly what has another owner, and that of a root exactly what has another root |
| `ClientCache.DetachKeeps` | src/client/arpc_client.c:477-493 | a detach holds on to everything, and leaves live exactly what is neither of that owner (or its root) under a key that is one of the getters, alone or with a colon and arguments |
| `ClientCache.KeyNamesCalls` | src/client/arpc_client.c:290-297 | a key answers for a getter exactly when it is its name, or its name, a colon and any arguments |
| `ClientCache.NothingOfRootRemains` | src/client/arpc_client.c:467-473 | after a root's purge nothing of that root is held |
| `ClientCache.DetachedDoesNotAnswer` | src/client/arpc_client.c:477-493 | after a detach no stale key answers a lookup |
| `ClientCache.InternKeepsKeysIff` | src/client/arpc_client.c:360-395 | an intern leaves one live entry per key exactly when no value that is no string is live under the key |
| `ClientCache.StoreKeepsKeysIff` | src/client/arpc_client.c:405-422 | storing a value leaves one live entry per key exactly when no string is live under the key |
| `ClientCache.HiddenStringIsMadeAgain` | src/client/arpc_client.c:360-422 | a key used for both kinds makes a string's pointer change: why the generator's discipline is needed |
| `ClientCache.Borrowed.Find` | src/client/arpc_client.c:307-325 | the lookup finds the entry added last |
| `ClientCache.Borrowed.Intern` | src/client/arpc_client.c:360-395 | the class's intern is the function's: state and pointer |
| `ClientCache.Borrowed.Lookup` | src/client/arpc_client.c:397-403 | a cached value is answered exactly when one that is no string is live |
| `ClientCache.Borrowed.Store` | src/client/arpc_client.c:405-422 | the class's store is the function's |
| `ClientCache.Borrowed.PurgeWhere` | src/client/arpc_client.c:425-444 | the two unlinking loops release and keep exactly what they should, in order |
| `ClientCache.Borrowed.MarkStale` | src/client/arpc_client.c:477-493 | the loop detaches exactly the stale entries |
| `ClientCache.IsStale` | src/client/arpc_client.c:290-297 | the key test decides whether one of the getters names the key |
| `Columns.ReadsAreFresh` | src/client/arpc_client.c:552-826 | over every run of registrations, reads, sets, frees and releases every slot points at a live group that has its package there, and a read of a string field gives the server's answer for that package alone if that is a string and nothing otherwise, of a number field that answer if it is a number and 0 otherwise |
| `Columns.StepKeeps` | src/client/arpc_client.c:606-826 | every operation keeps slots, groups and columns in agreement with the server |
| `Columns.RegisterKeeps` | src/client/arpc_client.c:660-699 | registering a list, overlapping ones included, keeps slots, groups and columns in agreement with the server |
| `Columns.ReadAgrees` | src/client/arpc_client.c:721-826 | one read gives that, and changes no other answer |
| `Columns.FetchedOnce` | src/client/arpc_client.c:769-792 | once a field was read of a package, reading it of any of its group asks no server and changes nothing |
| `Columns.SetKeeps` | src/client/arpc_client.c:632-646 | a setter that drops the column leaves no answer it has made false |
| `Columns.DropTakesOneColumn` | src/client/arpc_client.c:632-646 | it takes that field's column of the package's group and no other |
| `Columns.FreeKeeps` | src/client/arpc_client.c:606-625 | a release leaves no group or slot of its root, and no slot without its group |
| `Columns.FreeTakesOneRoot` | src/client/arpc_client.c:606-625 | and the groups and slots of other roots as they are |
| `Columns.WrongKindReadsNothing` | src/client/arpc_client.c:794-826 | a column fetched as one kind answers a reader of the other with nothing |
| `Columns.PlacingPlaces` | src/client/arpc_client.c:670-692 | members that had a slot keep it, the others get one, where they say |
| `Columns.PackageColumns.GroupNew` | src/client/arpc_client.c:660-699 | a group is made exactly when some member has none |
| `Columns.PackageColumns.FetchColumn` | src/client/arpc_client.c:721-767 | the fetched column has for each member in order the server's string or nothing, or its number or 0 |
| `Columns.PackageColumns.PackageField` | src/client/arpc_client.c:794-826 | the accessor is the read function |
| `Columns.PackageColumns.DropColumn` | src/client/arpc_client.c:632-646 | the first column of the field is unlinked |
| `Columns.PackageColumns.FreeGroupsOf` | src/client/arpc_client.c:606-625 | the two loops free exactly the root's groups and slots |
| `Marshal.RoundTrip` | tools/gen/emit.py:1119-1160 | for every schema and value, what the client rebuilds from the parsed text mirrors what the server had: fields, nested records, lists, counted arrays, paths in the connection's form, uncarried fields zero, handles replaced by ids filed for those objects; the text parses exactly when it nests at most 256 deep |
| `Marshal.PutMirrors` | tools/gen/emit.py:2033-2160 | the client's value rebuilt from the written tree mirrors the server's, field for field, with handles as ids |
| `Marshal.PathArrives` | src/server/arpc_paths.c:35-65 | across the wire a path arrives as it is on a connection of the server's form, or if it is empty or does not convert, and otherwise as converted |
| `Marshal.PutFieldsMirror` | tools/gen/emit.py:1143-1158 | a struct's members are found under their names whatever comes before them |
| `Marshal.PutAllMirrors` | tools/gen/emit.py:1299-1316 | lists and counted arrays are rebuilt element for element, in order |
| `Marshal.PutWritable` | tools/gen/emit.py:1090-1116 | what is written is text the reader can take: 64-bit numbers, NUL-free strings |
| `Marshal.PutReady` | tools/gen/emit.py:758-787 | writing files the objects met under the owner it is given, unless they are filed already and that is no closer, keeps the table sound, and every id filed before names what it named |
| `Marshal.CastsUndo` | tools/gen/emit.py:1099-1100 | a value of any integer type comes through the casts to and from 64 bits, large unsigned ones too |
| `Params.StringsArrive` | src/client/arpc_client.c:981-991 | a list of strings sent as a parameter, null strings among them, is what the server takes; an empty one and null alike |
| `Params.HandlesArrive` | tools/gen/emit.py:1339-1350 | a list of ids sent as a parameter makes the request bad exactly when some id is stale or of another kind, and otherwise gives each one's object, in order |
| `Params.HandleArrives` | src/server/arpc_server.c:324-333 | an id sent as a parameter makes the request bad exactly when it is not null and names no object of that kind, and otherwise gives the object or null |
| `Params.HandleComesBack` | tools/gen/emit.py:2040-2042 | a handle the server sent, as long as it stays filed, comes back across the wire as that object |
| `Params.ListComesBack` | src/client/arpc_client.c:993-1003 | a list of objects the server sent, as long as they stay filed, comes back across the wire as those objects, in order, and is refused exactly when a null was among them |
| `Invalidate.NeverAnotherObject` | src/server/arpc_invalidate.c:1-22 | over any history of objects made, filed, freed and addresses reused, an id that resolves reaches memory that is there and the object it always reached |
| `Invalidate.HooksDropExactly` | src/server/arpc_invalidate.c:79-209 | each pair of hooks drops exactly the ids of what dies in its call and of what is filed under that; none if the call did nothing |
| `Invalidate.ReleaseDropsExactly` | src/server/arpc_invalidate.c:79-100 | trans_release: on success, what is at or below a package added from a file or a copy to remove |
| `Invalidate.CommitDropsExactly` | src/server/arpc_invalidate.c:102-163 | trans_commit: on success or after any error but the twelve from checks, what is at or below the local db's package of a name added or removed |
| `Invalidate.UpdateDropsExactly` | src/server/arpc_invalidate.c:165-187 | db_update: unless all was up to date, what is below one of the dbs |
| `Invalidate.UnregisterDropsExactly` | src/server/arpc_invalidate.c:189-209 | unregister_all_syncdbs: on success, what is at or below a sync db |
| `Invalidate.HooksCoverIff` | src/server/arpc_invalidate.c:79-209 | the drops cover a call, so that histories allow it, exactly when whatever it frees that has an id is filed as what dies or under it |
| `Invalidate.PackageIsDoomedIff` | src/server/arpc_invalidate.c:178-187 | a package is covered by an update exactly when it is filed directly under one of the dbs |
| `Invalidate.MetInCallbackDangles` | tools/gen/emit.py:1502-1545 | a package filed under the handle, as a callback files it, is not: if the update frees it its id resolves to freed memory |
| `Invalidate.ListedIsCovered` | src/server/arpc_server.c:145-166 | once it is filed again as its db lists it, it is covered |
| `Invalidate.AfterAllExactly` | src/server/arpc_invalidate.c:52-60 | several drops, in any order, take exactly what some one of them would on its own |
| `Invalidate.ReachedIsGone` | src/server/arpc_invalidate.c:52-60 | whatever one of several drops would reach is gone after all of them, in any order |
| `Invalidate.NotesDropExactly` | src/server/arpc_invalidate.c:52-60 | dropping the noted pointers drops exactly what is filed as them or under them |
| `Invalidate.DbsDropExactly` | src/server/arpc_invalidate.c:178-187 | dropping under each db drops exactly what is filed below one |
| `Invalidate.UncoveredDangles` | src/server/arpc_invalidate.c:1-22 | if a bracketed call frees anything else that has an id, some id resolves to freed memory |
| `Invalidate.MoveKeeps` | src/server/arpc_server.c:145-264 | filing, freeing with its drops, and reuse each keep every id on its object |
| `Invalidate.Dying.Note` | src/server/arpc_invalidate.c:37-50 | a pointer more, null skipped, the others kept across growth |
| `Invalidate.ReleaseNotesAre` | src/server/arpc_invalidate.c:79-91 | noted are exactly the non-null packages added from files and all those to remove |
| `Invalidate.CommitNotesAre` | src/server/arpc_invalidate.c:113-131 | noted are exactly the packages the local db has under a name added or removed |
| `Invalidate.SyncDbNotesAre` | src/server/arpc_invalidate.c:192-199 | noted are exactly the non-null sync dbs |
| `Invalidate.TransReleasePre` | src/server/arpc_invalidate.c:79-91 | the loops over the two lists note those, in that order |
| `Invalidate.TransCommitPre` | src/server/arpc_invalidate.c:113-131 | the loops over the two lists note those, in that order |
| `Invalidate.UnregisterAllPre` | src/server/arpc_invalidate.c:192-199 | the loop notes those, in order |
| `Invalidate.DropAll` | src/server/arpc_invalidate.c:52-60 | the loop on the real table is one drop after another on the abstract one |
| `Invalidate.TransReleasePost` | src/server/arpc_invalidate.c:93-100 | given what the pre hook noted, the drops on the real table are the call's, made on success only |
| `Invalidate.TransCommitPost` | src/server/arpc_invalidate.c:156-163 | the same, made unless the error is one of those from before anything was touched |
| `Invalidate.DbUpdatePost` | src/server/arpc_invalidate.c:178-187 | the drops under each db, made unless all were up to date |
| `Invalidate.UnregisterAllPost` | src/server/arpc_invalidate.c:201-209 | given what the pre hook noted, the drops are the call's, made on success only |
| `Gpgdir.HandlerFindsGpgme` | src/server/arpc_gpgdir.c:82-97 | over every run, errors raised anywhere, a call's handler finds gpgme at its handle's directory exactly when: gpgme accepts it and no error is pending, or the last read is still so, or nothing was ever read and gpgme is there; or it refuses it and is there; and no pending error was cleared |
| `Gpgdir.HandlerSeesItsGpgdir` | src/server/arpc_gpgdir.c:82-97 | over every run in which no error is raised on a handle whose directory was set and not read since, that is exactly when gpgme accepts it or was there |
| `Gpgdir.StepKeeps` | src/server/arpc_gpgdir.c:25-31 | every step keeps: what was read since it was set is still so; and a pending error only where that holds, unless the step is an error where it does not |
| `Gpgdir.StartedMayFail` | src/server/arpc_gpgdir.c:25-31 | in such a run a call that has just started may leave an error |
| `Gpgdir.StaleAfterNestedSetter` | src/server/arpc_gpgdir.c:25-31 | a call whose callback sets the directory, and which then fails, leaves the next call on the handle with gpgme at the old one |
| `Gpgdir.PointsRightIff` | src/server/arpc_gpgdir.c:60-97 | the exact condition on any state in which what the server knows is so |
| `Gpgdir.Follower.GpgdirOf` | src/server/arpc_gpgdir.c:60-80 | the entry is read afresh exactly when no error is pending, and the handle's error is as it was |
| `Gpgdir.Follower.Follow` | src/server/arpc_gpgdir.c:82-97 | the method is the step |
| `Framing.SequenceArrives` | src/common/arpc_wire.c:177-210 | any frames of 1 to 64 MiB are received as that sequence |
| `Framing.StreamIsQueue` | src/common/arpc_wire.c:177-210 | while sends and receives alternate as they will the stream is a queue of frames |
| `Framing.ArrivesIffItFits` | src/common/arpc_wire.c:177-210 | a frame arrives as it was sent exactly when it has 1 to 64 Mi bytes |
| `Framing.SentIsReceived` | src/common/arpc_wire.c:177-210 | of anything sent, the length modulo 2^32 decides: that many bytes arrive, or the length is refused and reported |
| `Framing.HeaderIsReadBack` | src/common/arpc_wire.c:179-183 | the four header bytes, the low one first, are the length modulo 2^32, and are read back as it |
| `Framing.WriteExact` | src/common/arpc_wire.c:148-175 | all bytes are written however writes are split |
| `Framing.ReadExact` | src/common/arpc_wire.c:148-175 | all bytes are read however reads are split, and it fails exactly when the stream has not so many |
| `Framing.SendFrame` | src/common/arpc_wire.c:177-186 | header and payload on the stream |
| `Framing.RecvFrame` | src/common/arpc_wire.c:188-210 | a frame, NUL-ended; or null with the refused length; or null at the stream's end |
| `Base64Bits.EncodedIsBase64` | src/common/arpc_b64.c:9-38 | for every byte string: the encoded text is the letters, in the standard's alphabet, for its bits in order by sixes, zeros up to the last letter's end, and padding up to a whole group |
| `Base64Bits.DecodedIsBits` | src/common/arpc_b64.c:57-113 | whatever decodes gives the bytes made of its letters' bits in order, left-over bits ignored |
| `Base64.RoundTrip` | src/common/arpc_b64.c:9-113 | decoding undoes encoding for every byte string |
| `Base64.EncodedLength` | src/common/arpc_b64.c:11 | four characters for each started group of three bytes |
| `Base64.DecodesExactlyWellFormed` | src/common/arpc_b64.c:57-113 | what decodes is exactly the texts of whole groups of alphabet characters with padding only in the last one or two places |
| `Base64.LetterOfValue` | src/common/arpc_b64.c:42-55 | the alphabet read back |
| `Base64.Encode` | src/common/arpc_b64.c:9-38 | the loop computes the encoding, inside its buffer |
| `Base64.Decode` | src/common/arpc_b64.c:57-113 | the loop computes the decoding, inside its buffer, or fails with it |

## Left out

- Windows and Cygwin: pipe creation, tokens and identities, server launch, idle timers. The channel is bytes or frames. What cygwin_conv_path makes of a path is a parameter of `Marshal`; paths as parameters, client to server, are not modelled.
- libalpm, gpgme and libarchive inside: libalpm appears as freeing a set of objects, raising a callback and setting an error; both mtree readers are not part of this model.
- Failed allocation, the writer's error flag, and sizes near 2^63 in the buffers; tracing and log texts.
- Reconnecting from inside a callback after the pipe broke: `Protocol` is of one connection that does not fail.
- A callback nested inside a column fetch: `Columns` takes a fetch as one step, as two columns of one field could otherwise coexist.
- What a nested call for another handle does to gpgme for the rest of the outer handler: `Gpgdir` speaks of the moment a handler starts. libalpm's own one-time set-up of gpgme is taken to change nothing.
- The static strings (`src/client/arpc_client.c:520`) and the method tables with their binary search, which would add only easy members; a callback's name as text, its context pointer and the trampoline libalpm is given (`src/server/arpc_callbacks.c:135-158`): `Callbacks` numbers the kinds.
- Records and lists of records as parameters, client to server: records go through mirror images of the same writers and readers, and lists of records are sent as ids (`tools/gen/emit.py:2568-2573`) but read as objects (`tools/gen/emit.py:1339-1341`), so no round trip is claimed for them.
- How the generator fits a schema to libalpm's header: `Marshal` takes any schema whose structs have distinct, NUL-free member names.
- Which of several base64 texts a byte string has: the decoder ignores non-zero trailing bits, as section 3.5 of RFC 4648 permits, so encoding after decoding is not claimed to be the identity.
- uthash, bsearch and list internals: tables are sequences or maps with the lookup order the code relies on, and groups are reached by an address into a map.
- The width of the reader's `int` indexes: a document is taken to have fewer than 2^31 nodes.
- JsonConforms.AcceptsExactlyJson: bytes from 0x80 in a string are taken as they are, as the reader takes them, not only where they are UTF-8.
- Protocol.OneSideMoves: says a side can move, not that the caller's own code or a handler ever returns.
- HandleTable.Table.HandleDropOwner: says what becomes of the table; that the registrations go too is `Callbacks.DropOwner`.
- Callbacks.SentIffTaken: takes libalpm's setter to have no say, as the source sets the bit before it asks, and starting over with a reset to come only once the connection is gone.
- Invalidate.HooksCoverIff: what libalpm frees in each call is an assumption (`Dies`), taken from the comments beside the hooks; what follows if it frees more is `Invalidate.UncoveredDangles`.
