# go-activesync, modelled and proved

An Exchange ActiveSync client is three machines stacked on each other: a WBXML codec whose encoder and decoder carry a
hidden code page through a pre-order walk; a request layer that retries after 401 and re-provisions after 449; and
sync operations that move per-folder SyncKeys, reset them on status 3, bootstrap, and replay. This project models all
three, and the time-zone blob and recurrence records they carry, and proves what the repository relies on them for.

The functions are the specification and the classes the implementation. `Codec.Marshal`, `Codec.Unmarshal` and the
functions of `Session` are pure; `Encoding.Encoder`, `Decoding.Decoder`, `Registry.Registry`, `State.MemoryState` and
`Client.HttpClient` act step by step on fields, buffers and a state store, and every method is proved equal to its
function. The theorems are about the functions, and so hold of the classes.

- **Codec** (`MbUint`, `Registry`, `Tree`, `Grammar`, `Parser`, `Printer`, `Lockstep`, `Shortest`, `Codec`, `Decoder`,
  `Encoder`). `Grammar` is a declarative, page-threaded grammar over concrete syntax trees; nothing in it mentions the
  parser or the printer. The parser accepts exactly its language, and the printer writes its shortest word, in the
  stricter BNF of section 5.3 of WBXML 1.3. Strings are byte sequences and the registry is any one that `Add` can build.
- **Sync, provision and retry** (`Errors`, `Protocol`, `State`, `Session`, `Client`; then `Safety`, `AtMostOnce`,
  `Delivery`, `Bootstrap`, `InvalidKey`, `Wire`). A `World` is the store and the history of everything the client did. An
  `Env` is the adversary: from the history it decides which local steps fail and what the server answers, so a lemma about every
  `Env` is one about every server, every failure and every run. Requests are real trees, marshalled by the codec above.
- **Records** (`Decimal`, `TimeZone`, `Recurrence`, `Exceptions`). Decimal text, the 172-byte time-zone blob with its
  UTF-16 names, and recurrence and exception trees over the wire.

The specification functions are themselves held against literals, so that a swapped field, a skipped step or a wrong
constant in one of them contradicts a lemma:

- **Bytes** (`Reference`, `BlobLayout`, `Numerals`). The whole byte format is spelled a second time with its tokens as
  numbers, and the codec proved to write and read it; likewise the blob's fields by offset, and decimal text.
- **Trees** (`Paths`, `RequestTrees`, `ChangeEffects`, `Replies`, `CalendarTrees`). What a server finds in each request
  under each page and name, what it understands each email change to mean, and what the client reads in each reply a
  server can write, and in any document at all.
- **Conversations** (`Dialogue`, `Conversations`). Against a server that answers, each operation's result and the world it
  leaves are written out event by event: the resend after 401, the re-provisioning after 449, both phases of Provision,
  the reset, the second call, the bootstrap and the replay.

Where the repository's words and its code disagree, the model follows the code:

- eas/README.md:170-172 says SyncContacts, SyncTasks and SyncNotes reset the key on status 3. They call
  `genericSyncFolder` directly (eas/contacts.go:88-110), which does not: `InvalidKey.GenericSyncHasNoReset` says so of
  every environment, and `InvalidKey.GenericSyncKeepsInvalidKey` exhibits a server under which SyncEmail stores "0" and
  they keep the invalid key, for ever after by `InvalidKey.GenericSyncStaysStuck`.
- eas/changes.go:68-69 says `ensureSynced` makes sure the folder has a non-zero SyncKey. It does not when the bootstrap is
  answered with an empty 200, which counts as success with the old key, or with the key "0":
  `Bootstrap.SilentBootstrapYieldsNoKey` exhibits it and `Bootstrap.BootstrapYieldsKey` gives the exact condition.
- eas/timezone.go:116-117 says names are cut at 31 characters. The code keeps 32 units.
- wbxml/README.md:39 promises byte-equal round trips for whatever the codec can produce. The encoder writes blob lengths
  modulo 2^32 without a check, so a tree with a blob of 4 GiB or more is encoded and lost; `Codec.OversizeBlobIsLost`
  exhibits one, and `Codec.RoundTrip` and `Codec.ByteEqualIffProduced` give the exact conditions.
- eas/state.go:25-26 says a 449 clears the stored policy key with an empty string. Provision only ever stores the keys it
  was sent (`Safety.PolicyProvenance`).

## Model

| member | source | states |
|---|---|---|
| MbUint.ReadIffForm | wbxml/decode.go:103-116 | reading succeeds with v and leaves rest exactly when the input is at most five septets, continued on all but the last, whose sum modulo 2^32 is v, followed by rest |
| MbUint.ReadWritten | wbxml/encode.go:150-164 | every uint32 that is written, followed by anything, is read back and leaves what followed |
| MbUint.EncodeDenotes | wbxml/encode.go:150-164 | what is written has the form section 5.1 of WBXML 1.3 asks for and denotes the value |
| MbUint.EncodeIsShortest | wbxml/encode.go:150-164 | no accepted form of the same value is shorter |
| MbUint.Write | wbxml/encode.go:150-164 | the loop over the temporary array writes exactly that encoding |
| Registry.Registry.Add | wbxml/codepages.go:71-91 | whatever order the tags are visited in, a page is taken exactly when its number is new, its identities lie in 0x05..0x3F and its names differ; a rejected one changes nothing; lookups stay mutually inverse |
| Registry.Pages.LookupsAgree | wbxml/codepages.go:94-111 | TagID(p, n) = id exactly when TagName(p, id) = n, and every identity is in range |
| Grammar.TagsAreNotControl | wbxml/decode.go:121-135 | a tag byte, with or without the content flag, is never END, SWITCH_PAGE, STR_I or OPAQUE |
| Tree.CollectText | wbxml/doc.go:95-103 | the text is that of the direct text children, in order |
| Tree.TextIsJoined | wbxml/doc.go:95-103 | the text of a list is that of its parts joined in order; a text is its own, and elements and blobs have none, whatever is below them |
| Tree.FindAll | wbxml/doc.go:127-141 | the accumulated list is the name filter of the pre-order flattening |
| Tree.FindIsFirstNamed | wbxml/doc.go:108-123 | Find is the head of that list, or nothing |
| Tree.FindShallowIsFirst | eas/client.go:373-391 | findShallow is the first match in pre-order among the elements within the depth |
| Tree.DeepEnoughIsFind | eas/client.go:373-391 | from the height of the tree on, findShallow and Find agree |
| Parser.ReadsDerivation | wbxml/decode.go:121-190 | whatever the grammar derives is read as the element derived, leaving what follows, with the grammar's page active |
| Parser.ReadHasDerivation | wbxml/decode.go:121-190 | whatever is read was derived by the grammar from the bytes consumed |
| Parser.ReadIffDerives | wbxml/decode.go:121-190 | readElement succeeds with e, consuming a prefix, exactly when that prefix derives e in the page-threaded grammar |
| Printer.CanonDerives | wbxml/encode.go:88-146 | what writeElement emits for an encodable tree derives that tree |
| Printer.CanonStrict | wbxml/encode.go:88-118 | and lies in the strict BNF, where a page switch stands only directly before a tag |
| Printer.PagesAgree | wbxml/encode.go:88-96 | for every encodable tree, the pages its emitted tokens derive are the pages the encoder is on as it writes them |
| Lockstep.PagesReadAre | wbxml/decode.go:121-190 | reading the bytes of any derivation, the pages active at its tokens are those the grammar threads |
| Lockstep.DecoderKeepsStep | wbxml/decode.go:154-160 | reading back what the encoder wrote, the decoder is at every token on the page the encoder was on; both classes record these pages in `pages` |
| Printer.CanonEndPage | wbxml/encode.go:88-118 | after an element the decoder is left on the page of its last tag, also when that is not the element's own |
| Printer.DerivedIsEncodable | wbxml/decode.go:121-190 | every tree the grammar derives can be encoded |
| Shortest.CanonSwitches | wbxml/encode.go:88-96 | the switches emitted number the page changes of the pre-order tag sequence |
| Shortest.SwitchesNeeded | wbxml/encode.go:88-96 | no spelling of the tree has fewer |
| Shortest.BytesNeeded | wbxml/encode.go:88-146 | and none has fewer bytes besides its switches, so that the canonical spelling is shortest |
| Codec.DecodesEncoded | wbxml/encode.go:35-79 | a document with registered tags, NUL-free text and fitting blobs, followed by anything, is read back with its header defaults filled in, leaving what followed |
| Codec.RoundTrip | wbxml/encode.go:35-146 | Marshal succeeds exactly on encodable trees, and Unmarshal gives the document back exactly when every blob is shorter than 2^32 |
| Codec.OversizeBlobIsLost | wbxml/encode.go:138-142 | a concrete tree with a longer blob is accepted and not given back |
| Codec.MarshalIsInjective | wbxml/encode.go:35-79 | equal bytes, even with trailing bytes, come from equal documents: the output delimits itself |
| Codec.ReadsDocument | wbxml/decode.go:15-64 | every word of the document grammar, string table and leading switches included, is read as what it stands for |
| Codec.DocumentHasDerivation | wbxml/decode.go:15-64 | every accepted input is such a word |
| Codec.Canonicalises | wbxml/decode.go:15-64 | any accepted bytes, whoever wrote them, can be encoded again and then decode to the same document with zero header fields defaulted; doing it twice changes nothing |
| Codec.ByteEqualIffProduced | wbxml/encode.go:35-79 | decoding and encoding gives the same bytes exactly for what the encoder can produce from a tree with fitting blobs |
| Codec.AcceptedPrefixDecides | wbxml/decode.go:15-64 | appending bytes to an accepted input does not change the result |
| Codec.CanonIsShortest | wbxml/encode.go:35-79 | Marshal's output is no longer than any input that decodes to the document |
| Codec.MarshalIsShortest | wbxml/encode.go:35-79 | re-encoding an accepted input never lengthens it |
| Codec.SwitchesAreMinimal | wbxml/encode.go:65-75 | the switches of a whole document number its page changes from page 0, and no other spelling has fewer |
| Reference.MarshalIsSpelled | wbxml/encode.go:35-146 | whatever is encoded is, byte for byte, version 03, public id 01, charset 6A or those given, an empty string table, and the body with 00 page for a switch, 40 added to a tag with content, 01 for its end, 03 text 00 for a string and C3 length body for a blob |
| Reference.IntegerIsEncoded | wbxml/encode.go:150-164 | an integer is written in one to five septets, most significant first, each but the last with 80 added |
| Reference.SpelledIsRead | wbxml/decode.go:15-190 | those bytes, whatever follows them, are decoded to the document they spell |
| Reference.ExtrasAreSkipped | wbxml/decode.go:33-60 | a string table, switches before the root and switches at the end of an element are read over |
| Reference.LongIntegersAreRefused | wbxml/decode.go:103-116 | an integer of more than five bytes is refused, and one that the input ends in |
| Reference.OthersAreRefused | wbxml/decode.go:15-150 | so are no input, a header alone, a root that is END, carries attributes or is unknown to its page, and a string table longer than the input |
| Decoding.Decoder.ReadMBUInt32 | wbxml/decode.go:103-116 | the stateful reader advances exactly past the integer, or reports the error |
| Decoding.Decoder.ReadCStr | wbxml/decode.go:193-204 | the string up to the first NUL, or the end-of-input error exactly when there is none |
| Decoding.Decoder.ReadN | wbxml/decode.go:92-99 | the next n bytes, or an error and no movement |
| Decoding.Decoder.ReadElement | wbxml/decode.go:121-190 | refines the parser on position, active page and the page at each token, and every success consumes a byte |
| Decoding.Decoder.ReadChild | wbxml/decode.go:154-188 | the one-byte push-back is undone by progress |
| Decoding.Unmarshal | wbxml/decode.go:15-64 | terminates on every input with a document or an error, those of Codec.Unmarshal |
| Encoding.Encoder.WriteElement | wbxml/encode.go:88-118 | appends the canonical bytes from the encoder's page and leaves the page of the last tag active, recording `currentPage` at each token as specified, or stops at the first fault |
| Encoding.Encoder.WriteChild | wbxml/encode.go:120-146 | the same for one child: element, string, blob |
| Encoding.Marshal | wbxml/encode.go:35-79 | the stateful encoder's bytes or error are those of Codec.Marshal |
| Decimal.FormatInt | eas/sync.go:262-282 | never underruns its 20-byte buffer and yields Itoa's text for every 64-bit n |
| Decimal.ItoaIsCanonical | eas/sync.go:262-282 | above the minimum value that text is canonical decimal: an optional minus, no leading zero, and digits that denote the number |
| Numerals.ItoaInBytes | eas/sync.go:262-282 | a digit is its byte 30 to 39, a longer number its quotient by ten and its last digit, a negative one 2D and its magnitude, and the least 64-bit number 2D alone |
| Decimal.ParseInt | eas/client.go:396-409 | trims, rejects non-digits with zero, and otherwise accumulates with 64-bit wrap-around |
| Decimal.AtoiFromIs | eas/client.go:396-409 | on digits that accumulation is the decimal value modulo 2^64 |
| Decimal.AtoiOfItoa | eas/client.go:396-409 | atoi(itoa(n)) = n for n from 0 to 2^63-1, and zero for negative n |
| Numerals.AtoiInBytes | eas/client.go:396-409 | between any of the 25 UTF-8 spellings of white space, digits are their value modulo 2^64, and whatever else begins and ends with none of these is zero |
| Numerals.SpacesAreListed | eas/client.go:396-409 | nothing but those 25 spellings is trimmed, at either end |
| Numerals.AtoiOfNothing | eas/client.go:396-409 | nothing but white space is zero |
| TimeZone.StructRoundTrip | eas/timezone.go:83-113 | decode(encode(t)) = t exactly when each name has at most 32 UTF-16 units and no trailing U+0000 |
| TimeZone.BlobRoundTrip | eas/timezone.go:83-113 | encode(decode(b)) = b exactly for the 172-byte blobs whose name fields are well-formed UTF-16 |
| TimeZone.DecodeEncodeIsIdempotent | eas/timezone.go:83-113 | a second round trip changes nothing, for any t, also for a name cut in the middle of a surrogate pair |
| TimeZone.NameRoundTrip | eas/timezone.go:115-136 | one name field gives its name back exactly when it fits |
| TimeZone.FieldRoundTrip | eas/timezone.go:115-136 | a field of 32 units is written back unchanged exactly when it is well-formed |
| TimeZone.EncodedIsWellFormed | eas/timezone.go:164-194 | encoded scalars are well-formed UTF-16 and decode to themselves (RFC 2781 section 2) |
| TimeZone.Reencoded | eas/timezone.go:164-194 | re-encoding decoded units keeps their number, and gives them back exactly when no surrogate is alone |
| TimeZone.EncodeTimeZone | eas/timezone.go:83-94 | the buffer filled field by field is the specified blob |
| TimeZone.ReadWCharFixed | eas/timezone.go:126-136 | trimming in a loop and decoding gives the field's name |
| TimeZone.Utf16Decode | eas/timezone.go:178-194 | the loop decodes pairs and lone units as specified |
| BlobLayout.LayoutIs | eas/timezone.go:83-161 | the bias is at byte 0, the standard name, date and bias at 4, 68 and 84, the daylight ones at 88, 152 and 168, all little-endian and two's complement, dates as year, month, day of week, day, hour, minute, second, milliseconds |
| BlobLayout.NamesLieAt | eas/timezone.go:115-136 | unit i of a name, or zero after its end, is at twice i of its field, low byte first |
| BlobLayout.UnitsOfScalar | eas/timezone.go:164-176 | a scalar below U+10000 is its own unit, one above it is D800 plus its upper and DC00 plus its lower ten bits less 10000 |
| BlobLayout.LoneSurrogate | eas/timezone.go:178-194 | a surrogate without its pair is decoded to U+FFFD |
| Recurrence.TreeRoundTrip | eas/recurrence.go:74-150 | although zero fields are omitted, a pattern is read back from its tree exactly when no number is negative |
| Recurrence.SurvivesTheWire | eas/recurrence.go:74-150 | the same through tree, Marshal, Unmarshal and tree; every pattern can be sent |
| CalendarTrees.RecurrenceIsFound | eas/recurrence.go:74-109 | each field is found once under its own name, and not at all when it is zero, or not positive where the source asks for that |
| CalendarTrees.RecurrenceIsRead | eas/recurrence.go:113-150 | after any children, one more sets the field its name says and no other |
| CalendarTrees.OtherNamesAreIgnored | eas/recurrence.go:113-150 | and one of any other name sets none; without children everything is zero |
| Recurrence.RecurrenceToWBXML | eas/recurrence.go:74-109 | the appending code builds that tree |
| Recurrence.RecurrenceFromWBXML | eas/recurrence.go:113-150 | the loop over children sets those fields |
| Exceptions.ExceptionTreeRoundTrip | eas/recurrence.go:153-230 | an exception is read back unchanged exactly when its numbers are not negative, or it is deleted and holds nothing else; a deleted one keeps exactly its start time and flag |
| Exceptions.ExceptionSurvivesTheWire | eas/recurrence.go:153-230 | it can be sent exactly when its texts hold no NUL, and is then received as above |
| CalendarTrees.ExceptionIsFound | eas/recurrence.go:153-191 | each part is found under its own name; a deleted instance has its start and the flag only |
| CalendarTrees.BodyIsFound | eas/recurrence.go:183-189 | the body is found as plain text in Type and Data of Body on the AirSyncBase page |
| CalendarTrees.ExceptionIsRead | eas/recurrence.go:194-230 | after any children, one more sets the part its name says; a body is taken from Data on the AirSyncBase page only |
| CalendarTrees.OtherPartsAreIgnored | eas/recurrence.go:194-230 | and one of any other name sets none; without children everything is zero |
| Exceptions.ExceptionToWBXML | eas/recurrence.go:153-191 | the appending code builds that tree |
| Exceptions.ReadException | eas/recurrence.go:194-230 | the loop over children, nested body included, reads it |
| Errors.IsHTTPStatus | eas/errors.go:25-34 | true exactly when the first HTTP error on the chain has the status |
| Errors.IsStatusCode | eas/errors.go:61-68 | true exactly when the first status error on the chain has the code |
| Errors.OutermostDecides | eas/errors.go:25-68 | on any chain the outermost error of a kind decides, and a chain without one has none |
| State.MemoryState.SyncKey | eas/state.go:71-78 | the stored key, "0" for a folder never synced |
| State.MemoryState.SetSyncKey | eas/state.go:81-86 | that folder's key changes and nothing else |
| Client.CollectBatch | eas/sync.go:224-241 | the loop over commands sorts them into the three lists in order |
| Client.CollectGeneric | eas/contacts.go:444-467 | the same for the other classes, which drop items without data |
| Client.BuildCommands | eas/changes.go:91-135 | only the changes that change something become commands, in order |
| ChangeEffects.ChangesAreUnderstood | eas/changes.go:91-135 | a server that reads the commands finds what the changes mean, one command for each effect and in order: Read "1" or "0", FlagStatus the given code or else "2" or "0", Delete for deletions, and nothing for changes without an id or without effect |
| RequestTrees.EmailRequestIsFound | eas/sync.go:144-202 | a SyncEmail request holds key, folder, window and wait or heartbeat where the protocol has them, with the defaults for options left at zero |
| RequestTrees.EmailOptionsAreFound | eas/sync.go:144-202 | and its filter, MIME, body preference, preview and rights options, each on its page |
| RequestTrees.CalendarRequestIsFound | eas/calendar.go:140-165 | the same of SyncCalendar |
| RequestTrees.GenericRequestIsFound | eas/contacts.go:405-425 | the same of contacts, tasks and notes, whose window is 100 |
| RequestTrees.MutationIsFound | eas/changes.go:137-150 | a mutation holds key, folder and commands, DeletesAsMoves for email changes only, and never GetChanges |
| RequestTrees.AddIsFound | eas/contacts.go:309-325 | an added item holds its client id and its data |
| RequestTrees.ProvisionIsFound | eas/provision.go:69-90 | Provision names the policy type, and its acknowledgement the key and Status 1 |
| RequestTrees.FolderSyncIsFound | eas/foldersync.go:133-137 | FolderSync holds the hierarchy key |
| RequestTrees.CollectionIsOrdered | eas/sync.go:144-202 | the elements of a collection come in the order of the protocol's schema |
| RequestTrees.OptionsAreOrdered | eas/sync.go:144-202 | and so do the options of an email fetch |
| RequestTrees.SyncIsOrdered | eas/sync.go:144-202 | a Sync is one collection, after the wait or heartbeat |
| Replies.SyncReplyIsRead | eas/sync.go:204-249 | of any Sync reply a server writes, the client reads a failing code at the top or else in the collection as StatusError "Sync" with that code, and otherwise the key, whether there is more, the responses and the commands |
| Replies.RefusalOfAnySync | eas/sync.go:204-216 | of any document at all: the first Status child of the root decides, and otherwise the first Status at depth one of the first Collection |
| Replies.RefusalOfAnyOther | eas/provision.go:95-108 | the same of Provision and its policy, and of FolderSync |
| Replies.KeyOfAnyReply | eas/sync.go:217-222 | the key read of any document is the first at depth one of the first Collection, or of the first Policy, or of the hierarchy |
| Replies.ListsOfAnyReply | eas/contacts.go:325-341 | and so are the commands, the responses and an item's id |
| Replies.CommandsAreRead | eas/sync.go:224-241 | Add, Change and the two deletions go to their own lists, with id and data |
| Replies.AnyCommandIsRead | eas/contacts.go:444-467 | the same of any element: email and calendar keep an item without data and ignore a deletion without an id, the other classes do the opposite |
| Replies.OtherCommandsAreIgnored | eas/sync.go:224-241 | anything else delivers nothing |
| Replies.DeliveredInOrder | eas/sync.go:224-241 | a list of commands delivers what its parts do, list by list and in order |
| Replies.ResponsesAreRead | eas/changes.go:180-199 | the responses' ids and statuses are returned one for one and in order |
| Replies.AssignmentIsRead | eas/contacts.go:325-341 | an Add response assigns its server id to its own client id and to no other |
| Replies.FolderReplyIsRead | eas/foldersync.go:142-155 | of a FolderSync reply the client reads the status, the key and the changes |
| Replies.FoldersAreRead | eas/foldersync.go:157-172 | an Add is added, an Update updated and a Delete deleted, if it has an id |
| Replies.OtherFoldersAreIgnored | eas/foldersync.go:157-172 | any other entry is ignored |
| Replies.FoldersConcat | eas/foldersync.go:157-172 | a list of entries is read list by list and in order |
| Replies.ProvisionReplyIsRead | eas/provision.go:95-113 | of a Provision reply the client reads the status at the top, the policy's, and its key |
| Client.FindAssigned | eas/contacts.go:325-341 | the server id of the first response to the client id, or the client id |
| Protocol.AssignedIsFirst | eas/contacts.go:325-341 | the first response that names the client id and a server id decides, and none of the others does |
| Client.HttpClient.PostRawOnce | eas/client.go:225-308 | one request with the stored policy key in its header, as an abstract step |
| Client.HttpClient.PostRaw | eas/client.go:207-223 | refines the specification: two retries and the re-provisioning between them |
| Client.HttpClient.Post | eas/client.go:174-193 | refines it around the codec |
| Client.HttpClient.Provision | eas/provision.go:32-61 | refines it: two phases, two writes |
| Client.HttpClient.ProvisionPhase | eas/provision.go:69-125 | refines it: status checks in the source's order |
| Client.HttpClient.ParseSync | eas/sync.go:204-249 | refines it: the key is persisted last |
| Client.HttpClient.SyncFolder | eas/sync.go:95-123 | refines it: reset on status 3, second call after an empty batch, fall-through when that fails |
| Client.HttpClient.SyncEmail | eas/sync.go:78-124 | refines it with the options' defaults |
| Client.HttpClient.SyncCalendar | eas/calendar.go:107-138 | refines it with the options' defaults |
| Client.HttpClient.GenericSync | eas/contacts.go:398-477 | refines it: no reset, no second call |
| Client.HttpClient.EnsureSynced | eas/changes.go:70-84 | refines it |
| Client.HttpClient.SendSyncCommands | eas/calendar.go:404-442 | refines one attempt at sending commands |
| Client.HttpClient.ApplyChangesOnce | eas/changes.go:86-199 | refines one attempt at applying email changes |
| Client.HttpClient.MutateWithReset | eas/contacts.go:378-393 | refines bootstrap, send, reset, bootstrap, replay |
| Client.HttpClient.ApplyEmailChanges | eas/changes.go:44-66 | refines it after the argument checks |
| Client.HttpClient.AddItem | eas/contacts.go:309-343 | refines it |
| Client.HttpClient.FolderSync | eas/foldersync.go:116-126 | refines it |
| Client.HttpClient.FolderSyncOnce | eas/foldersync.go:128-179 | refines it |
| Dialogue.OneRequest | eas/client.go:225-308 | one request is one exchange; 200 to 299 is success with its body, any other status an HTTPError with it |
| Dialogue.NoRetry | eas/client.go:207-223 | any status but 401, where that is retried, and 449, outside Provision, ends the post after that exchange |
| Dialogue.ResendAfter401 | eas/client.go:211-213 | after 401 the same bytes are sent exactly once more and the second reply decides |
| Dialogue.ResendAfter449 | eas/client.go:214-219 | after 449 and an accepted re-provisioning the same bytes are sent once more and that reply decides; a failed one ends the post with its status |
| Dialogue.PostAnswered | eas/client.go:174-193 | the document the server encodes is the one the caller gets |
| Dialogue.PostUnanswered | eas/client.go:174-193 | an empty body is no document and no error |
| Dialogue.PostFails | eas/client.go:174-193 | a request that cannot be encoded is not sent; a reply that is no document, no success or no reply at all fails the post, with the HTTP status if there is one |
| Dialogue.ProvisionCompletes | eas/provision.go:32-61 | phase 1 under "0", the temporary key stored, phase 2 under it, the final key stored: exactly these exchanges and writes |
| Dialogue.PhaseAnswered | eas/provision.go:69-125 | one phase returns the policy key of any reply a server writes, or its refusal |
| Dialogue.PhaseFails | eas/provision.go:91-101 | without a document or a policy it fails, with no status |
| Dialogue.ProvisionStops | eas/provision.go:32-61 | a refusal of the first phase or a missing key ends Provision there; one of the second leaves the temporary key stored |
| Conversations.SyncOnceHears | eas/sync.go:126-249 | one Sync against any reply a server writes: its status error, or its key stored and its batch returned |
| Conversations.SyncOnceHearsNothing | eas/sync.go:126-142 | an empty reply is an empty batch under the old key, for every class |
| Conversations.FetchStartsOver | eas/sync.go:95-100 | told at the top or in the collection that the key is invalid, a fetch stores "0" and syncs again under "0" |
| Conversations.SyncEmailRecovers | eas/sync.go:78-124 | SyncEmail refused so and then answered returns the second answer, with its key stored |
| Conversations.FetchStands | eas/sync.go:95-100 | any other outcome of the first Sync stands |
| Conversations.FetchReturnsItems | eas/sync.go:104-107 | a batch with items is returned without a second call |
| Conversations.FetchCallsAgain | eas/sync.go:104-123 | after an empty batch a second Sync is made under the key just stored, and its result returned, or the first one if it fails |
| Conversations.FetchStopsWithoutKey | eas/sync.go:108-114 | unless that key is still "0" or empty |
| Conversations.PublicFetches | eas/calendar.go:107-125 | SyncEmail and SyncCalendar fill in their defaults and refuse an empty folder id before anything is asked |
| Conversations.GenericSyncHears | eas/contacts.go:398-477 | the other classes against any reply: a missing key keeps the old one |
| Conversations.NoCollection | eas/sync.go:208-211 | without a collection a fetch fails and stores nothing |
| Conversations.EnsureSyncedHears | eas/changes.go:70-84 | a usable key asks nothing; otherwise one email fetch with default options stores the key it is given |
| Conversations.MutateOnceHears | eas/calendar.go:404-442 | one attempt against any reply: its status error, or its key stored and its document or statuses returned |
| Conversations.MutationIsAnsweredOtherwise | eas/changes.go:155-165 | an empty reply is no document and no statuses; one without a collection is returned for commands and a failure for email changes |
| Conversations.MutationBootstraps | eas/contacts.go:378-393 | without a usable key the bootstrap comes first; refused, nothing of the mutation is sent, and answered, the attempt is made with its key stored |
| Conversations.MutationIsOneAttempt | eas/contacts.go:378-393 | without status 3 a mutation is one attempt |
| Conversations.MutationReplays | eas/contacts.go:378-393 | with it, "0" is stored, a bootstrap made under it, and the same attempt made under the key that gives |
| Conversations.NothingToApply | eas/changes.go:44-66 | changes without effect, an empty list and an empty folder id are refused before anything is asked |
| Conversations.AddItemHears | eas/contacts.go:309-343 | the id returned is the one the reply's first response to the client id assigns, or the client id |
| Conversations.FolderSyncHears | eas/foldersync.go:116-179 | FolderSync returns the key and the three lists of the reply, and after status 3 those of the reply to a second one under "0" |
| Conversations.FolderSyncHearsNothing | eas/foldersync.go:142-152 | no document, or one without a key, is a failure, and nothing is stored |
| Conversations.FirstStepFails | eas/sync.go:126-130 | if the first local step fails, nothing is sent or stored |
| Conversations.PolicyReadFails | eas/client.go:225-308 | a request whose policy key cannot be read is not sent |
| Conversations.SecondReadFails | eas/sync.go:108-114 | a key that cannot be read back costs only the second call |
| Conversations.PersistFails | eas/calendar.go:404-442 | a key that cannot be stored fails a fetch or an attempt although the server accepted it |
| Conversations.ResetFails | eas/contacts.go:378-393 | a reset that cannot be stored fails the call and nothing more is asked |
| Conversations.BootstrapFails | eas/contacts.go:378-393 | a bootstrap that fails, before the attempt or before the replay, fails the call and nothing more is sent |
| Safety.PostSafe | eas/client.go:174-223 | against any server the mutual recursion ends: a post makes at most 6 requests, one of Provision at most 2; folder keys are untouched; an error that carries a status comes from the reply just received |
| Safety.ProvisionSafe | eas/provision.go:32-61 | at most 4 requests; the stored policy key goes from the initial to the temporary to the final key, and Provision succeeds exactly when the final one was stored |
| Safety.SyncFolderSafe | eas/sync.go:95-123 | at most 3 posts (2 without the second call), of at most 6 requests each, no other folder's key changes, and on a nil error the returned key is the stored one |
| Safety.MutateWithResetSafe | eas/contacts.go:378-393 | at most 6 posts, of at most 6 requests each, and no other folder's key changes |
| Safety.OperationSafe | eas/client.go:174-223 | every operation keeps the invariant that each request and each write is justified by what came just before, leaves other folders alone and is bounded |
| Safety.RunSafe | eas/sync.go:95-123 | so does every run, from any store, against any environment |
| Safety.ResultsReportStoredKeys | eas/sync.go:242-248 | after SyncEmail, SyncCalendar, genericSyncFolder or FolderSync without error, the returned key is the stored key |
| Safety.KeyProvenance | eas/sync.go:245-247 | in any run a folder's stored key is its initial one, "0", or one the server sent in a response accepted for that folder |
| Safety.PolicyProvenance | eas/provision.go:44-58 | the stored policy key is the initial one or the last one an accepted Provision reply sent, never empty |
| Safety.ResetsAreProvoked | eas/sync.go:96-99 | unless the server itself sends or keeps "0", that key is written only right after a reply with status 3, to that folder's request or to a Provision |
| Safety.RequestsAreCurrent | eas/provision.go:44-52 | every request of a run carries the keys stored at that moment, so a replay the one read after the bootstrap; phase 2 carries the temporary key in header and body |
| Safety.RetryCarriesFinalKey | eas/client.go:214-219 | a request repeated after 449 is sent with the final policy key, whether or not a reply comes back |
| AtMostOnce.PostRawApplies | eas/client.go:207-223 | resends after 401 and 449 add nothing to what a server that ignores rejected requests applied |
| AtMostOnce.MutateOnceApplies | eas/calendar.go:404-442 | an attempt that ends in status 3 was not applied |
| AtMostOnce.MutationIsAtMostOnce | eas/contacts.go:378-393 | across all resends, the reset and the replay, one call's commands are applied at most once; exactly once when the call has a document or per-change statuses of the server's to return and the server applies what it accepts |
| AtMostOnce.OtherOperationsAreQuiet | eas/changes.go:70-84 | no fetch, bootstrap, folder sync or provisioning applies anything |
| AtMostOnce.RunIsAtMostOnce | eas/changes.go:44-66 | over any run the server applies at most as many command lists as mutating operations were called |
| Delivery.SyncOnceDelivers | eas/sync.go:126-142 | against a server that answers each key with what follows it, one Sync reports exactly the log between the old and new stored key; a failed one moves nothing |
| Delivery.CallDelivers | eas/sync.go:95-123 | so does one call, with its reset, its second call and the fall-through |
| Delivery.NothingLostNothingTwice | eas/sync.go:78-124 | with arbitrary HTTP, transport and store failures and other operations in between, the batches the calls of a run report of a folder are together exactly the server's log from the first to the last stored key |
| Delivery.ResetStartsOver | eas/sync.go:95-100 | with resets, what is reported since the last one is the whole log up to the stored key |
| Delivery.NoStatus3NoReset | eas/sync.go:95-100 | a server that never says status 3 never causes a reset |
| Delivery.GenericDelivers | eas/contacts.go:398-477 | genericSyncFolder moves over the log exactly as far as it reports |
| Delivery.GenericNothingLostNothingTwice | eas/contacts.go:398-477 | so do runs of SyncContacts, SyncTasks and SyncNotes calls: together they report exactly the log from the first to the last stored key, with no condition on resets |
| Bootstrap.BootstrapYieldsKey | eas/changes.go:70-84 | a bootstrap that succeeds leaves a usable key if and only if there was one before, or the reply to its last request has a document and does not send "0" |
| Bootstrap.SilentBootstrapYieldsNoKey | eas/changes.go:68-84 | against a server that answers with an empty 200, every first bootstrap of a folder that can be encoded succeeds and changes nothing |
| Bootstrap.MutationIsKeyed | eas/contacts.go:378-393 | against a server that gives keys, neither the attempt nor the replay is sent without one |
| Bootstrap.RunIsKeyed | eas/changes.go:44-66 | nor is any mutation of any run |
| InvalidKey.GenericSyncHasNoReset | eas/contacts.go:398-477 | in every environment a generic Sync that fails leaves the key alone, and one told that the key is invalid ends after that one post |
| InvalidKey.GenericSyncKeepsInvalidKey | eas/contacts.go:88-110 | a concrete server that says status 3: the generic Sync reports it and keeps the key, where SyncEmail stores "0" |
| InvalidKey.GenericSyncStaysStuck | eas/contacts.go:88-110 | however often it is repeated there, the key stays |
| Wire.ServerReadsRequest | eas/sync.go:144-202 | the bytes of a request of any run decode to the request exactly when no blob in it is oversize; a Sync then names its folder and the key stored for it, an acknowledgement the policy key in its header |

## Left out

- Errors: which error is returned is modelled, its message and byte offset are not.
- Nil arguments: nil documents, registries, element pointers and recurrences, and shared or cyclic trees.
- The contents of string tables, which the codec skips, and attributes, processing instructions and entities, which it rejects.
- The literal code-page tables; the codec is proved for every registry `Add` can build.
- Registry.Registry.Add: the source panics where the model returns an error, and keeps a pointer to the page, so a page changed by its owner afterwards is not modelled.
- Integer width: `int` is 64 bits; 32-bit platforms are not modelled.
- Base64 around the blob, Go's time formatting and parsing (an abstract pair of functions, assumed inverse only on the timestamps written) and EncodeTimeZone's probing of the local clock.
- Names are sequences of Unicode scalar values; Go strings with invalid UTF-8 are not modelled.
- Client.HttpClient.PostRawOnce: URL, headers, gzip, authentication, size cap and contexts are one step that may fail, because they decide nothing but whether it fails.
- Errors of stores and transports are assumed to wrap no HTTPError or StatusError; a failed store write is assumed to leave the old value, and one client to use a folder at a time.
- Client.HttpClient.SyncFolder: SyncEmail and SyncCalendar have separate bodies in the source that differ only in request options and item parsing; the model shares one, and one body of sendSyncCommandsWithReset and ApplyEmailChanges in Client.HttpClient.MutateWithReset.
- Client.HttpClient.ProvisionPhase: the policy type, which only labels an error, and the caching of the parsed policy are left out, because no key or retry depends on them.
- Client.HttpClient.ParseSync: an item keeps its ServerId and raw ApplicationData, because the field parsers are flat lists.
- Item, folder and policy parsers: an item is its ServerId and raw ApplicationData, a folder its element; lastPolicy, RemoteWipe and its acknowledgement are not part of this model.
- CreateEvent's field checks, the building of ApplicationData, and the random client ids, which are a parameter.
- Delivery.NothingLostNothingTwice: mutations and bootstraps of the folder itself are excluded, because the source discards the server's commands there.
- Mutexes of MemoryState and the client: the model is sequential.
- Autodiscover, Options, Ping, SendMail, Search, Find, Settings, GAL, rights management, S/MIME, the command-line probe and the mock server: network plumbing or flat field lists.
