# Verification of the mxml editor and of the EP6 start/stop handshake

`mxml` edits an XML document without parsing it into a tree. A document is an
immutable text plus a list of edits, newest first, that is never folded back into
the text. Two engines interpret that pair. The *lookup* (`find_key`) goes through
the edits and then walks down through the raw text, behind a cache of 32 slots. The
*writer* (`flatten_edits`) drives one token carrier up and down a chain of small
state machines, one per edit, with a tokenizer on top. Above both are key expansion
(`a.b[4]`, `[#]`, `[$]`, `[+]`), the bookkeeping of list totals, and the three
entities `&lt;`, `&gt;`, `&amp;`.

The project models these files step by step, as methods over mutable state
(`Cursor`, `Mxml` with its cache array and edit list, `XmlState`, the arrays of edit
states and token buffers), proves each method against a specification, and then
proves what the specifications mean:

* **The two engines agree.** For every source document and every run of
  append, update, delete and set, `mxml_write` fails exactly when a new tag does not
  fit its buffer; else a key is found over the edits exactly when it is found in the
  text written, but for a top-level element that was appended (`RunFoundAgrees`), and
  `mxml_get` gives the same for both exactly under a condition on what the lookup
  finds (`RunGetAgrees`). A key with brackets names the same for both exactly when every
  total it reads counts alike, which again is a condition on what the lookup finds
  (`TotalAgreesExactly`), and then reads the same exactly under the condition of dotted
  keys (`RunGetAgreesBracketed`). Runs that fail the conditions are given
  (`StrayTextJoins`, `LongTagRun`, `RootUnwritten`, `TotalWithChild`).
* **The carrier machine is a fold of per-token maps** and terminates, for every text
  and every edit list, although an appended closing tag can trigger further appends
  below (`FlattenEdits`). Every edit list, reachable or not, keeps a token stream well
  nested (`FlattenKeepsNesting`); after every run the tokens of what is written are the
  flattened tokens, and it is a source document again if and only if an element is left
  (`RunRoundTrip`); and with no edits any text, well formed or not, comes out as it went in, if and only if
  the scan does not end at a `<` that is its last character (`WriteReproduces`).
* **The scanners refine tree navigation** on the text of any tree (`FindRefinesNav`,
  `ToCloseStopsAtOwnTag`), and the cache never changes an answer (`FindKeyNoEdit`).
* **Each operation changes what it names, the total that goes with it, and nothing
  beside them**, for keys of any form (`DeleteAny`, `AppendAny`, `UpdateAny`, `SetAny`,
  `SetNothing`), and so for
  dotted keys (`DeleteOnly`, `AppendOnly`, `SetOnly`, `SetThenGet`).
* **A key means what its characters say**: which keys are well formed, and what each
  part stands for, is defined from the characters, and expansion gives just that, for
  every key (`ExpandExactly`).
* **The operations keep their invariants over all runs**: every edit was recorded
  when what it needs was there (`RunValid`), what is found has all its parents
  (`AncestorFound`), so the notion of a parent implied by an append never matters
  (`LookupStep`); lists are stacks (`ListIsStack`), and for which tags deleting `t[$]`
  keeps them so is known exactly (`PopExactly`, `AllPopsRight`); `mxml_keys` lists just
  the keys that are found, once each and in the order of the text (`RunKeysAreFound`,
  `RunKeysInOrder`); `mxml_expand_key` succeeds exactly when there is room
  (`PinnedExactly`), and the two key expanders agree exactly when every `[$]` is of a
  list that has items (`PinnedExpandsAlike`).
* **The EP6 handshake**, as an interleaving of single statements of the main thread
  and of any number of workers: at most one worker is alive, the address it sends to
  is never rewritten under it, and every packet goes to where the start packet that
  spawned the worker came from (`OneWorker`, `AddrOnlyAlone`, `SentToStart`). Sockets
  are closed under a living worker exactly when a failing receive makes `main` leave
  while `active_thread` is set (`ClosedAlone`, `SentWhileOpen`). A start brings up one
  worker that sends, a stop leaves none and silence, a discovery closes a socket that
  no worker uses, and each can be done with (`StartStarts`, `StopStops`, `StopSilences`,
  `DiscoveryCloses`, `StopEnds`).

`dafny verify dfyconfig.toml` verifies the whole project.

## How the model is laid out

A tree (`Items` in `Tree.dfy`) is what a text means; `Ser` writes it, `Nav` walks it.
A token is a kind, a full dotted key, and a value that is either raw source text or a
user value, which is encoded when written (length -1 in the original). A reference to a
token is the index of the state that owns its buffer, so that a held token is a
reference into someone else's buffer, as in the original. A lookup answers with a span
of the source text or with the value of an edit.

The documents of the theorems about trees are those that `mxml/mxml.h` describes: no
attributes, no empty-element tags, tag names the parser can read, comments and
processing instructions only in the prolog or after other text. Text is allowed
anywhere, in interior elements too; repeated sibling names are allowed except for
`mxml_keys`. Keys given to the editor are asked not to end in a dot and to be free of
what the parser cannot read in a tag: `<`, `>` and white space, and at the beginning of
a tag also `/`, `!` and `?` (`CleanKey`).

## Where the code and its documentation differ

The model follows the code.

* `mxml_append`, `mxml_delete`, `mxml_update` and so `mxml_set` return 0 for a key that
  does not expand (`mxml/mxml.c:186-187`, `283-284`, `318-319`), where
  `mxml/mxml.h:62`, `71`, `83` and `97` announce -1.
* The check for an empty last tag at `mxml/mxml_ekey.c:172` compares positions in two
  different buffers and never holds, so keys that end in a dot do expand.
* `mxml_expand_key` does not fail on a malformed key; what `[$]` stands for is then 0
  (`mxml/mxml.c:413-416`).
* An element appended at the top level, with no parent, is found by the lookup but
  never written, since no closing tag of its parent ever comes
  (`mxml/mxml_flatten.c:152`, `317`): `LiveRoot` in `FoundAgrees` is exactly this case,
  and `RootUnwritten` a run.
* Deleting a child with text after it joins that text to the text before it when
  written, while the lookup still sees a child there: `SourceTextAgrees` says what each
  side reads, `StrayTextJoins` gives an input where they differ.
* A list's total with an element inside is no number in the written text, while the
  editor goes on counting by the text it finds (`mxml/mxml_ekey.c:144-150`), and the
  other way round when the only elements in it have been deleted. A key with `[$]` or
  `[+]` then names another item once written: `CountsAlike` in `TotalAgreesExactly` is
  exactly when it does not, and `TotalWithChild` gives a run of one call after which
  `r.t[$]` reads "v" before writing and nothing after.
* When the key of a list's total has exactly 256 characters, appending `t[+]` returns 0
  and records neither the item nor the total: `t[+]` expands, since the total's key needs
  no NUL there (`mxml/mxml_ekey.c:133-160`), and `t[#]` then does not
  (`mxml/mxml.c:355-358`). `RoomForTotal` in `AppendAny` is exactly this case, and
  `PlusDropped` a run.
* `mxml_get` decodes a value given by the user, who never encoded it: `SetThenGet` and
  `ValueAgrees` say for which values this matters.
* The total of a list whose tag itself ends in digits goes down wrongly, or overruns
  `totalbuf`: `PopExactly` says when, for every tag and number of items, and
  `DigitTagMiscounts` gives a run after which a list of 2 items counts 12.
* An element whose name has 125 characters or more can be appended and is found, but
  from then on `mxml_write` and `mxml_keys` fail (`mxml/mxml_flatten.c:155-156`):
  `LongTagUnwritten`.
* A `<` that is the last character of the text, where a token begins, is not written
  (`mxml/mxml_flatten.c:201-203`): `Lone` in `WriteReproduces` is exactly this case.
* When a receive fails `main` leaves, and `hpsdr_network_deinit` closes the sockets
  without stopping the worker (`hpsdr/hpsdr_network.c:146-156`, `214-217`,
  `hpsdr/hpsdr_main.c:201-205`): `ResetClosesSocket` gives an interleaving in which the
  worker then sends on a closed socket.
* `pthread_create` never returns a negative number, so its failure goes unnoticed
  (`hpsdr/hpsdr_network.c:345`): `FailureSticks` says what happens then.

## Model

| member | source | states |
|---|---|---|
| `Cursors.Cursor.Eat` | mxml/mxml_cursor.c:25-54 | the string is passed exactly when all of it stands at the cursor |
| `Cursors.Cursor.EatWhite` | mxml/mxml_cursor.c:58-65 | the cursor passes all white space, and says whether there was any |
| `Cursors.Cursor.SkipTo` | mxml/mxml_cursor.c:68-73 | the cursor stops at the first occurrence of the string, or at the end |
| `Cursors.Cursor.SkipToCh` | mxml/mxml_cursor.c:76-79 | the cursor stops at the first occurrence of the character, or at the end |
| `Cursors.Cursor.SkipContent` | mxml/mxml_cursor.c:86-97 | text, comments and instructions are passed, up to the next tag |
| `Cursors.Cursor.SkipToClose` | mxml/mxml_cursor.c:100-117 | the cursor stops at the next closing tag that closes nothing opened on the way; the depth never goes below 0 |
| `TreeText.ToCloseOver` | mxml/mxml_cursor.c:100-117 | the bracket matching passes over the text of any forest, at any depth |
| `TreeText.ToCloseStopsAtOwnTag` | mxml/mxml_cursor.c:100-117 | started inside an element, for every content, the scanner stops at that element's own closing tag |
| `TreeText.OpensNamedIs` | mxml/mxml_find.c:65-66 | a tag is taken for the wanted one exactly when their names are equal, also when one name is a prefix of the other |
| `TreeText.ScanOver` | mxml/mxml_find.c:61-84 | on the text of any content the search finds the first child of that name, or that there is none |
| `TreeText.FindRefinesNav` | mxml/mxml_find.c:25-87 | on the text of any tree, looking up a key gives the span of the content that walking the tree reaches, and fails exactly when the walk fails |
| `SpacedTags.SpacedOpens` | mxml/mxml_find.c:64-66 | also with white space, and anything but `>`, after its name a tag is taken for the wanted one exactly when the names are equal, and the content begins after its `>` |
| `MxmlInt.Mxml.constructor` | mxml/mxml.c:98-111 | a new editor has no edits, and a valid cache that holds no key |
| `Cache.CacheGet` | mxml/mxml_cache.c:15-28 | a hit is what the search without the cache would find |
| `Cache.CacheSet` | mxml/mxml_cache.c:30-42 | the slot whose turn it is is replaced, all others stay, and the turn goes to the next modulo 32; every slot stays right, no key becomes resident twice |
| `Find.EatTag` | mxml/mxml_find.c:64-66 | where the cursor stands after a tag name has or has not matched |
| `Find.FindChildOf` | mxml/mxml_find.c:57-86 | the loop over the children finds what the specification of the search finds |
| `Find.FindKeyNoEdit` | mxml/mxml_find.c:25-87 | cached lookup equals uncached lookup, through recursive fills and evictions, and keeps the cache valid |
| `Find.FindKey` | mxml/mxml_find.c:96-132 | the newest edit that settles the question decides, else the source text, else an implied parent |
| `KeyPath.ExtInverse` | mxml/mxml_flatten.c:96-106 | splitting off the last tag undoes appending it to a key |
| `Reachable.LookupStep` | mxml/mxml_find.c:96-132 | over every reachable edit list, one edit changes a lookup as if there were no implied parents |
| `Reachable.ParentFound` | mxml/mxml.c:328-339 | if a key is found over a reachable edit list, so is its parent |
| `Reachable.AncestorFound` | mxml/mxml.c:328-339 | parent closure: if a key is found, so is every key around it |
| `Codec.Put` | mxml/mxml.c:32-32 | one character goes to the buffer, when there is one, and is counted |
| `Codec.UnencodeInto` | mxml/mxml.c:28-59 | the sizing pass and the filling pass count alike, and the filling pass writes the decoded text |
| `Codec.UnencodeXml` | mxml/mxml.c:67-82 | the returned buffer is the decoded text and a NUL |
| `Codec.DecodeEncode` | mxml/mxml_write.c:34-47 | decoding an encoded string returns it |
| `Codec.StrictExactly` | mxml/mxml_write.c:34-47 | a reader that knows the three whole entities and refuses any other `&`, `<` and `>` reads a text as a value if and only if the text is the value's encoding |
| `Codec.EntityDecoded` | mxml/mxml.c:34-57 | what decoding makes of any ampersand: `<`, `>`, `&` or nothing by the first letter of its name, up to the semicolon or the end; one at the very end stays |
| `Codec.DecodeKeepsPlain` | mxml/mxml.c:28-59 | decoding leaves a raw value alone exactly when it has no `<` and no `&` but at its end |
| `Tokenizer.XmlState.EatTagName` | mxml/mxml_flatten.c:210-215 | the name up to white space or `>`, and the place after the tag |
| `Tokenizer.XmlState.Tokenize` | mxml/mxml_flatten.c:181-254 | each call gives the next token of the source with its full key, the end, or that the key does not fit |
| `TreeTokens.SourceOver` | mxml/mxml_flatten.c:181-254 | wherever the text of content stands, its tokens come, each with its dotted key, and the key stack is as before |
| `TreeTokens.SourceOfProlog` | mxml/mxml_flatten.c:181-254 | so it is for a prolog and then elements or nothing, but an empty text has no tokens at all |
| `TreeTokens.SourceOfTree` | mxml/mxml_flatten.c:181-254 | tokenizing the text of a document gives the tokens of its tree |
| `SpacedTags.SpacedTokens` | mxml/mxml_flatten.c:200-246 | a tag with white space, and anything but `>`, after its name gives the token of its name alone, and the next token is after its `>` |
| `Tokens.EditTokensOf` | mxml/mxml_flatten.c:290-385 | mapping one edit over the tokens of a tree gives the tokens of the edited tree |
| `Tokens.ApplyTokensOf` | mxml/mxml_flatten.c:405-511 | all edits, oldest first, over the tokens of a tree give the tokens of the tree edited in that order |
| `Tokens.FlattenKeepsNesting` | mxml/mxml_flatten.c:313-385 | every list of edits, reachable or not, with whatever keys but the empty one, keeps a token stream balanced with full keys |
| `Flatten.MakeEditStates` | mxml/mxml_flatten.c:113-172 | one quiescent state per edit between writer and source; fails exactly when a new tag does not fit its buffer |
| `Flatten.ProcessSet` | mxml/mxml_flatten.c:290-305 | the stage passes OPEN, sends its value after it, drops other values, and touches no other stage |
| `Flatten.ContinueAppend` | mxml/mxml_flatten.c:338-369 | an empty carrier is given what the stage still owes, ending with the held CLOSE, unchanged |
| `Flatten.HoldClose` | mxml/mxml_flatten.c:313-336 | the parent's CLOSE is held and the new OPEN sent instead; anything else passes |
| `Flatten.ProcessAppend` | mxml/mxml_flatten.c:313-369 | the stage as a whole makes of each token what the per-token map says |
| `Flatten.ProcessEdit` | mxml/mxml_flatten.c:371-400 | every kind of stage passes the carrier as its per-token map says |
| `Flatten.ProcessXml` | mxml/mxml_flatten.c:375-380 | the source puts its next token in its own buffer, and what is left is the rest |
| `Flatten.FlattenEdits` | mxml/mxml_flatten.c:405-511 | for every text, edit list and callback the loop ends; the tokens passed on are the fold of the per-token maps over the source, up to the first the callback answers -1 for; the answer is the sum of its answers, or -1 when it refuses, a tag does not fit or a key does not |
| `Carrier.Rises` | mxml/mxml_flatten.c:499-500 | an empty carrier passes a stage that owes nothing, and what is to come is unchanged |
| `Carrier.PassingKeeps` | mxml/mxml_flatten.c:487-504 | one turn of the machine keeps all that has been and will be written, keeps stages below a full carrier quiescent, and uses up work |
| `Carrier.SourceKeeps` | mxml/mxml_flatten.c:375-380 | taking a token from the source keeps all that has been and will be written |
| `Carrier.WriterKeeps` | mxml/mxml_flatten.c:390-396 | handing a token to the callback keeps all that has been and will be written |
| `Carrier.DownIsApply` | mxml/mxml_flatten.c:405-511 | the way down through all stages is the fold of the edits, oldest first |
| `Carrier.ApplyEof` | mxml/mxml_flatten.c:371-400 | the end passes every stage as it is |
| `Carrier.ApplyNoEof` | mxml/mxml_flatten.c:390-396 | no edit makes an end of another token, so the callback never gets one |
| `Write.WriteToken` | mxml/mxml_write.c:11-50 | a raw value is handed on as it stands, a user value in pieces, encoded, none empty; the answer is the sum of the writer's, or -1 at its first -1 |
| `Write.ValueJoining` | mxml/mxml_write.c:34-47 | the pieces of a value together are its encoding |
| `Write.PiecesFilled` | mxml/mxml_write.c:24-33 | no piece handed on is empty |
| `Write.AllAnswered` | mxml/mxml_flatten.c:405-511 | for a writer that counts, the answers token by token add up to what they are piece by piece |
| `Write.AllCounted` | mxml/mxml_write.c:24-33 | a writer that answers lengths is told to have written the length of the pieces together |
| `Write.OfferedStops` | mxml/mxml_write.c:24-33 | the pieces are handed on one after another up to the first that the writer answers -1 for, if there is one, and nothing after it |
| `Write.MxmlWrite` | mxml/mxml_write.c:52-55 | what the writer is handed is the text of the flattened tokens, all of it or up to where it refuses; with a writer that counts, failure exactly when a tag or a key does not fit, and else the sum of its answers, piece by piece; with one that answers the length it is handed, the length of the text |
| `Write.TextOfTree` | mxml/mxml_write.c:11-55 | the tokens of a tree are written as the text of the tree |
| `Write.WrittenIsTree` | mxml/mxml_write.c:52-55 | the written document is the text of the edited tree |
| `Write.SourceTiles` | mxml/mxml_flatten.c:187-217 | for any text, the token spans tile it, but for a `<` that is the last character and where the scan arrives |
| `Write.WriteReproduces` | mxml/mxml_write.c:18-22 | with no edits any text is written byte for byte if and only if the scan does not arrive at such a `<` |
| `Write.LoneTagIsLost` | mxml/mxml_flatten.c:201-203 | an input that shows a `<` at the very end is lost |
| `Write.LastTagKept` | mxml/mxml_flatten.c:201-215 | an input that ends in `<` and is written byte for byte |
| `Retokenize.WrittenIsSource` | mxml/mxml_write.c:52-55 | what is written is the edited tree with adjacent text joined, and a source document again if and only if an element is left in it, as when the document element is never deleted |
| `Retokenize.WriteThenTokenize` | mxml/mxml_flatten.c:181-254 | whatever is edited or deleted, tokenizing the written text gives the flattened stream, values encoded, up to joining adjacent values and dropping empty ones |
| `Retokenize.RunShort` | mxml/mxml.c:178-393 | every run records only keys that fit KEY_MAX |
| `Retokenize.RunRoundTrip` | mxml/mxml_flatten.c:181-254 | for every run: if all tags fit, the tokens of the text written are the flattened tokens, up to joining; that text is a source document again if and only if an element is found at the top that was not appended there |
| `EditNav.NavEdited` | mxml/mxml_flatten.c:290-385 | walking the edited tree: an edit removes, changes or creates just the element it names |
| `EditNav.EditedJoinsLead` | mxml/mxml_flatten.c:381-385 | how deleting children changes the leading text of an element |
| `EditNav.DecodeLead` | mxml/mxml.c:53-54 | decoding the content of an element gives the text before its first child |
| `Agreement.EditsCorrespond` | mxml/mxml_find.c:96-132 | lookup over the edits and walk of the edited tree correspond, for every reachable edit list and key |
| `Agreement.WrittenLookup` | mxml/mxml_write.c:52-55 | lookup in the written text is the walk of the edited tree |
| `Agreement.FoundAgrees` | mxml/mxml_find.c:96-132 | a key is found in the written text if and only if it is found over the edits and is not under a top-level element that was appended |
| `Agreement.ChildStaysExactly` | mxml/mxml_find.c:96-132 | what is written of an element, or of the document, has an element inside if and only if one is found right inside over the edits |
| `Agreement.ValueAgrees` | mxml/mxml.c:137-149 | the written document reads as the user's value; the editor reads the same if and only if the value is plain |
| `Agreement.SourceTextAgrees` | mxml/mxml_flatten.c:381-385 | each side's reading of source text after any deletions of children: its leading text, and its leading text with what deleted children leave to join it |
| `Agreement.TextAgrees` | mxml/mxml.c:137-149 | both sides read the same source text when no text follows a child, or no child was deleted |
| `Agreement.StrayTextJoins` | mxml/mxml_flatten.c:381-385 | an input where deleted children make the two sides read differently |
| `Decimal.ParseDigits` | mxml/mxml_ekey.c:26-33 | digits are read to the end, or refused exactly when their value exceeds UINT_MAX |
| `Decimal.ParseUintOf` | mxml/mxml_ekey.c:19-44 | the loops compute the value of digits padded by white space |
| `Decimal.ParseExactly` | mxml/mxml_ekey.c:19-44 | a string is accepted if and only if it is padded digits of a value that fits |
| `Decimal.ParsePadded` | mxml/mxml_ekey.c:19-44 | and then the value is that of the digits |
| `Decimal.PaddedOnItsLine` | mxml/mxml_ekey.c:19-44 | all six kinds of white space pad a number |
| `Decimal.ParseToDec` | mxml/mxml.c:365-370 | what `%u` prints is read back |
| `Decimal.FillTotal` | mxml/mxml.c:210-233 | the right-to-left loop fills totalbuf with the digits less the carry, or finds more digits than it has room for |
| `Decimal.DecrementTail` | mxml/mxml.c:210-240 | the borrow over the digits at the end of the key, unless they overrun totalbuf |
| `Decimal.DecrementToDec` | mxml/mxml.c:212-240 | canonical N becomes canonical N-1, and 1 becomes nothing |
| `Decimal.DecrementValue` | mxml/mxml.c:212-240 | for any digits, canonical or not, the value goes down by one, and 0 stays |
| `Ekey.ReadTotal` | mxml/mxml_ekey.c:144-150 | the recorded total, 0 when there is none that makes sense |
| `Ekey.OutStr` | mxml/mxml_ekey.c:80-84 | the string is appended exactly when it fits |
| `Ekey.OutIndex` | mxml/mxml_ekey.c:111-117 | `tag[123]` becomes `tags.tag123` |
| `Ekey.OutTotal` | mxml/mxml_ekey.c:124-161 | `tag[#]`, `tag[$]` and `tag[+]` become the total's key and the key of the item it counts to |
| `Ekey.OutBracket` | mxml/mxml_ekey.c:109-164 | one bracket, in all its forms, or the error it is refused with |
| `Ekey.ExpandKey` | mxml/mxml_ekey.c:60-188 | the loop computes the expansion, which a lookup can start from and which fits its buffer |
| `Ekey.ExpandUpTo` | mxml/mxml_ekey.c:92-104 | dotted text is copied, whatever follows it |
| `KeyMeaning.ExpandExactly` | mxml/mxml_ekey.c:60-188 | for every key: it expands if and only if its characters are well formed (no empty tag but the last; each bracket after a tag, holding a number that does not begin with 0, `$` or `+`, or `*` or `#` in the last, and ending its tag) and what it stands for fits; it expands to what it stands for, read from its end; a well-formed key is refused with ENOMEM only |
| `KeyMeaning.MalformedRefused` | mxml/mxml_ekey.c:162-163 | a malformed key never expands |
| `Api.MxmlGet` | mxml/mxml.c:137-149 | the decoded text of what is found, "0" for a missing total |
| `Api.MxmlExists` | mxml/mxml.c:301-305 | whether the expanded key is found |
| `Api.EditNew` | mxml/mxml.c:156-176 | the edit is put at the head, the rest is unchanged |
| `Api.AppendMissingParents` | mxml/mxml.c:328-339 | an empty append for each missing parent, outermost first |
| `Api.MxmlAppend` | mxml/mxml.c:307-380 | refuses what exists; else parents, the new total for `[+]`, and the element |
| `Api.TotalStart` | mxml/mxml.c:243-244 | back to after the last dot |
| `Api.CountDownTotal` | mxml/mxml.c:197-269 | the total one smaller: removed, set or appended |
| `Api.MxmlDelete` | mxml/mxml.c:178-273 | deletes what exists, and counts down for `[$]` |
| `Api.MxmlUpdate` | mxml/mxml.c:275-299 | sets what exists; a total cannot be set |
| `Api.MxmlSet` | mxml/mxml.c:382-393 | deletes, appends or updates |
| `ApiReach.ParentsAdded` | mxml/mxml.c:328-339 | after the loop every parent is there, and nothing else has changed but elements with no text |
| `ApiReach.SameExpansion` | mxml/mxml.c:355-358 | elements with no text change no expansion, so `tag[#]` still names the total of the list appended to |
| `ApiReach.ThroughPlus` | mxml/mxml.c:342-358 | the key with `[+]` names an item of the list whose total is counted up |
| `ApiReach.AppendValid` | mxml/mxml.c:307-380 | append keeps every edit recorded with what it needs |
| `ApiReach.DeleteValid` | mxml/mxml.c:178-273 | delete keeps every edit recorded with what it needs |
| `ApiReach.UpdateValid` | mxml/mxml.c:275-299 | update keeps every edit recorded with what it needs |
| `ApiReach.RunValid` | mxml/mxml.c:178-393 | so does every run of the editor on every text |
| `Laws.DeleteAny` | mxml/mxml.c:178-273 | for any key: what is returned, and every lookup after: the element and all inside it gone, for `t[$]` the total as the borrow leaves it or gone, every other as before |
| `Laws.PlusCounts` | mxml/mxml.c:342-358 | for a key with `[+]` that expands: `t[#]` names the total beside the list that `t[*]` names, unless that key has exactly 256 characters, which is refused |
| `Laws.AppendAny` | mxml/mxml.c:307-380 | for any key: refused for what is there; else success, with the missing elements around it found, and, unless the total's key has 256 characters, the value found and the total one greater; every other lookup as before |
| `Laws.SetAny` | mxml/mxml.c:382-393 | for any key: what is there takes the value and nothing else changes, a total is refused, and else it is appending |
| `Laws.SetNothing` | mxml/mxml.c:385-386 | setting to NULL, for any key: the status and every lookup after, as for deletion: what is there gone with all inside it, the total counted down for `t[$]`, every other lookup as before |
| `Laws.SetNothingThenGet` | mxml/mxml.c:385-386 | after setting a dotted key to NULL nothing is read at it or inside it |
| `Laws.UpdateAny` | mxml/mxml.c:275-299 | for any key: what is there takes the value and nothing else changes; refused for what is not there and for a total |
| `Laws.MalformedIdle` | mxml/mxml.c:185-187 | whatever is asked of a malformed key, nothing changes, and nothing is read |
| `PlusRun.PlusDropped` | mxml/mxml.c:355-358 | a document and a run of one append with `[+]` that returns 0 and records no item |
| `Laws.DeleteOnly` | mxml/mxml.c:178-273 | for a dotted key: the element and all inside it are gone, every other lookup is as before, also when there was nothing to delete |
| `Laws.AppendOnly` | mxml/mxml.c:307-380 | for a dotted key: refused for what is there; else the value is found, with the missing elements around it, and every other lookup is as before |
| `Laws.SetOnly` | mxml/mxml.c:382-393 | for a dotted key: always succeeds, and then the same, whether the key was there or not |
| `Laws.SetThenGet` | mxml/mxml.c:137-149 | after setting, `mxml_get` gives the value back if and only if it is plain |
| `Laws.WritesExactly` | mxml/mxml_flatten.c:155-156 | a document can be written, and listed, if and only if every tag appended has at most 124 characters |
| `Laws.LongTagUnwritten` | mxml/mxml_flatten.c:155-156 | an element with a tag of 125 characters or more is appended and found, and then the document can be neither written nor listed |
| `Laws.LongTagRun` | mxml/mxml_flatten.c:155-156 | a document and a run of one call where this happens |
| `Laws.RootUnwritten` | mxml/mxml_flatten.c:152-152 | a document and a run of one append at the top, whose value is read over the edits and is not in the text written |
| `RunAgreement.CleanExpansion` | mxml/mxml_ekey.c:60-188 | a key free of markup expands to one whose tags can be written and found again |
| `RunAgreement.RunClean` | mxml/mxml.c:178-393 | every run with such keys records only such keys |
| `RunAgreement.RunFoundAgrees` | mxml/mxml_find.c:96-132 | for every document, run and key: mxml_write fails if and only if a tag does not fit, and else the key is found over the edits if and only if it is found in the text written, but under an appended top-level element |
| `RunAgreement.RunPlain` | mxml/mxml.c:178-393 | every run with plain values records only plain values |
| `RunAgreement.KeyAgreesExactly` | mxml/mxml.c:137-149 | for every reachable edit list and dotted key, both sides read the same if and only if the lookup finds nothing; or, not under an appended top-level element, a plain value, or source text to which deleted children leave no text to join |
| `RunAgreement.WrittenReads` | mxml/mxml.c:137-149 | what the written text reads at a dotted key, told from the lookup and the source: the user's value, or the source's text joined with what deleted children leave |
| `RunAgreement.WrittenStrictly` | mxml/mxml_write.c:34-47 | the content written for an element with a user value, up to its first tag, is read back as that value by the reader of the three whole entities |
| `RunAgreement.RunGetAgrees` | mxml/mxml.c:137-149 | for every document, run and dotted key: mxml_write fails if and only if a tag does not fit, and else mxml_get gives for the written text what it gives now if and only if that is so |
| `RunAgreement.ReadsAlikePlainly` | mxml/mxml.c:137-149 | which is so with plain values when no text follows a child, or no child was deleted |
| `RunAgreement.ClosedTextsLead` | mxml/mxml.c:34-57 | the entities that this asks to be ended are, where every piece of the source's text ends its entities |
| `Totals.WrittenTotalIs` | mxml/mxml_ekey.c:144-150 | what the written text counts for a total, told from the lookup and the source: 0 with an element inside or if not written, else the user's value or the source's text joined with what deleted children leave |
| `Totals.TotalAgreesExactly` | mxml/mxml_ekey.c:144-150 | for every reachable edit list and total: the editor counts the same if and only if there is none; or it counts 0 where an element is inside or the total is not written; or it is a user's value, or source text that had no element or joins to what counts 0 |
| `Brackets.ExpandAlikeExactly` | mxml/mxml_ekey.c:124-161 | for any two documents: where both give the same for every total read on the way, a key expands or is refused alike; and a key that expands does so only then |
| `Brackets.TotalsAgreeExactly` | mxml/mxml_ekey.c:144-150 | all totals that a key reads are the same in the written text if and only if each counts alike in the sense above |
| `Brackets.GetAgreesBracketed` | mxml/mxml.c:137-149 | for every reachable edit list and key with or without brackets: a key that expands names the same in the written text if and only if those totals count alike; and then mxml_get agrees if and only if what it names reads alike, or, for a `t[#]` that is not written, reads "0" |
| `Brackets.WrittenReadsBracketed` | mxml/mxml.c:137-149 | and what mxml_get gives for any key over the written text, whatever the key names there, told in the same way |
| `Brackets.RunGetAgreesBracketed` | mxml/mxml.c:137-149 | so for every run: mxml_write fails if and only if a tag does not fit, and else this holds of the text written |
| `TotalRun.TotalWithChild` | mxml/mxml_ekey.c:144-150 | a document and a run of one call after which `r.t[$]` reads "v" over the edits, reads alike by its dotted key, and reads nothing in the text written |
| `Lists.ExpandBracket` | mxml/mxml_ekey.c:124-161 | what `t[+]`, `t[$]` and `t[#]` stand for |
| `Lists.PushHolds` | mxml/mxml.c:341-379 | appending `t[+]` to a consistent list adds the value on top, records the total, and changes no other item, whatever the tag |
| `Lists.PopHolds` | mxml/mxml.c:203-269 | deleting `t[$]` of a consistent list takes the top item off and records the total, which is absent for an empty list |
| `Lists.ListIsStack` | mxml/mxml.c:178-380 | over every run of these operations the list is the stack they make, and after the first of them `t[#]` reads the number of items |
| `Lists.TopIsLast` | mxml/mxml.c:137-149 | `t[$]` reads the top, and nothing of an empty list |
| `Lists.TotalReads` | mxml/mxml.c:137-149 | `t[#]` reads the number of items, "0" for none |
| `Lists.FreshList` | mxml/mxml.c:137-149 | where there is no list element there is a consistent list of no items |
| `Lists.PopMixed` | mxml/mxml.c:203-269 | what deleting `t[$]` leaves for any tag that is not all digits: the top item gone, and the total that the borrow makes |
| `ListTags.PopExactly` | mxml/mxml.c:203-269 | for every tag and every consistent list with items: deleting `t[$]` succeeds and leaves a consistent list of one item less if and only if the tag ends in no digit; or it is not all digits, they denote 0, there are 2 items or more, and the digits fit totalbuf |
| `ListTags.PopCountsExactly` | mxml/mxml.c:203-269 | and besides records the total as it is printed if and only if the tag ends in no digit; or in one digit, a 0, after something else, with 2 items or more and as many digits in their number as in one less |
| `ListTags.AllPopsRight` | mxml/mxml.c:203-269 | every deletion is right if and only if the tag does not end in a digit |
| `ListTags.LeftRightExactly` | mxml/mxml.c:212-240 | the total that the borrow leaves is right if and only if the tag ends in no digit, or in digits that denote 0 and there is another item |
| `ListTags.PopBeside` | mxml/mxml.c:243-250 | for a tag of digits only the list's own total stays as it was |
| `ListTags.DigitTagMiscounts` | mxml/mxml.c:221-233 | a document and a run: three values appended to `r.t1`, counting 3; the last deleted, with success, counting 12 |
| `Pinning.ReadTotalFor` | mxml/mxml.c:403-416 | what `[$]` stands for: the total that `tag[#]` finds, or 0 |
| `Pinning.MxmlExpandKey` | mxml/mxml.c:395-435 | every `[$]` is replaced by its number, or the result does not fit |
| `Pinning.PinnedExactly` | mxml/mxml.c:419-434 | it succeeds if and only if the key has room with each `$` as long as its number, and so with 10 digits for each; a key without `[$]` comes back as it is |
| `Pinning.PinnedParts` | mxml/mxml.c:399-425 | the first `[$]` becomes its number in brackets, what is before it stays, and what is after it is replaced alike |
| `Pinning.MalformedCounts` | mxml/mxml.c:413-416 | after what is malformed `[$]` becomes 0 |
| `Pinning.ReachedTotal` | mxml/mxml_ekey.c:133-150 | `tag[#]` of the key up to a `[$]` names the total that expansion reads at that `[$]`, also behind other brackets |
| `Pinning.PinnedExpandsAlike` | mxml/mxml.c:395-435 | for a key that expands, and whose form with numbers fits: that form expands as the key does if and only if every `[$]`, nested ones too, is of a list that has items |
| `Keys.MxmlKeys` | mxml/mxml_keys.c:12-43 | the keys of the OPEN tokens, in order |
| `Keys.OpenKeysOfTree` | mxml/mxml_keys.c:12-29 | the keys listed for a tree are its elements in document order |
| `Keys.KeysDistinct` | mxml/mxml_keys.c:31-43 | no key is listed twice when siblings have different names |
| `Keys.ListedIsReached` | mxml/mxml_keys.c:31-43 | a key is listed if and only if walking the tree reaches it |
| `Keys.EditTreeUnique` | mxml/mxml.c:321-326 | reachable edits keep siblings' names different |
| `Keys.KeysAreFound` | mxml/mxml_keys.c:31-43 | for a reachable edit list the listed keys are in document order, distinct, and just those that are found |
| `Keys.RunKeysAreFound` | mxml/mxml_keys.c:31-43 | so for every run of the editor: mxml_keys fails if and only if a tag does not fit, and else lists those keys, in document order |
| `KeyOrder.RunKeysInOrder` | mxml/mxml_keys.c:12-29 | of any two keys listed after any run, the content of the earlier begins before that of the later in the text written |
| `Handshake.RunSafe` | hpsdr/hpsdr_network.c:313-349 | the invariant of every interleaving of packets, failing receives, the main thread's statements up to its end, and any number of workers' |
| `Handshake.OneWorker` | hpsdr/hpsdr_network.c:334-349 | at most one worker lies between its creation and its clearing of `active_thread` |
| `Handshake.AddrOnlyAlone` | hpsdr/hpsdr_network.c:335-340 | `addr` changes only while there is no worker |
| `Handshake.ClosedAlone` | hpsdr/hpsdr_network.c:146-156 | when a TCP socket is closed there is no worker, if and only if it is not `hpsdr_network_deinit` that closes it, or `active_thread` is not set, or a creation has failed |
| `Handshake.ResetClosesSocket` | hpsdr/hpsdr_network.c:214-217 | an interleaving in which a failing receive closes the TCP socket under a worker, which then sends on it |
| `Handshake.SentToStart` | hpsdr/hpsdr_network.c:396-406 | every packet goes to the address of the start packet that spawned its worker |
| `Handshake.SentWhileOpen` | hpsdr/hpsdr_network.c:396-406 | a packet goes through an open socket if and only if `hpsdr_network_deinit` has not closed that socket yet |
| `Handshake.AllSentOpen` | hpsdr/hpsdr_network.c:396-406 | if no receive has failed, all packets have gone through open sockets |
| `Handshake.WaitEnds` | hpsdr/hpsdr_network.c:313-315 | if no creation has failed, the wait has an end: each step of the worker is one nearer to it, and then the main thread goes on |
| `Handshake.LastPacket` | hpsdr/hpsdr_ep6.c:82-84 | after `enable_thread` is cleared at most the one packet being filled is sent |
| `Handshake.FailureSticks` | hpsdr/hpsdr_network.c:342-348 | after a creation has failed nothing is ever started, stopped or sent again |
| `HandshakeRuns.HistoryKept` | hpsdr/hpsdr_network.c:206-212 | the peers that the state keeps are those of the packets: the last over UDP, and for each start packet the last over UDP then |
| `HandshakeRuns.StopStops` | hpsdr/hpsdr_network.c:304-320 | after a stop packet, whenever the main thread is back to receive: no worker, both flags cleared, no TCP socket |
| `HandshakeRuns.StopSilences` | hpsdr/hpsdr_network.c:304-320 | and from there on nothing is sent and no worker created until another start packet, whatever else happens |
| `HandshakeRuns.StopEnds` | hpsdr/hpsdr_network.c:313-320 | and the main thread can come back, if no creation has failed |
| `HandshakeRuns.StartStarts` | hpsdr/hpsdr_network.c:334-349 | after a start packet, whenever the main thread is back: one worker more, the only one alive, running, with both flags set, `addr` the peer of the packet or, over TCP, of the last packet over UDP, and the same socket |
| `HandshakeRuns.StartEnds` | hpsdr/hpsdr_network.c:334-349 | and it can come back, if no creation has failed |
| `HandshakeRuns.DiscoveryCloses` | hpsdr/hpsdr_network.c:285-301 | after a discovery packet, whenever the main thread is back: the TCP socket is closed if no worker is alive, and else stays, and so do the workers |
| `HandshakeRuns.DiscoveryEnds` | hpsdr/hpsdr_network.c:285-301 | and it can come back |
| `HandshakeRuns.SocketStays` | hpsdr/hpsdr_network.c:222-228 | a TCP client, once accepted, is the one until a stop or a discovery packet comes |
| `HandshakeRuns.OtherPassed` | hpsdr/hpsdr_network.c:352-391 | any other packet changes nothing but, over UDP, where the last packet came from |
| `HandshakeRuns.WorkerCycle` | hpsdr/hpsdr_network.c:396-406 | three statements of a running worker send one packet, to `addr`, through the TCP socket if there is one, and change nothing else |
| `HandshakeRuns.CreationFails` | hpsdr/hpsdr_network.c:345-348 | a failed creation leaves the main thread receiving, with `active_thread` set and no worker |
| `HandshakeRuns.FailedStopHangs` | hpsdr/hpsdr_network.c:313-315 | and then a stop packet is never done with |

## Left out

- Allocation, which is taken to succeed, `mxml_free`, and the wrappers in `mxml/mxml_mem.c`, `mxml/memcpy_s.c` and `mxml/memomve_s.c`.
- What the original does after it has written before `totalbuf` (`mxml/mxml.c:232`): the model answers `Overrun` there and keeps the deletion it has recorded.
- The capacity of `newtotal` (`mxml/mxml.c:350`), which any unsigned number fits.
- `errno` beyond what an operation's answer depends on, and the printing under `DEBUG`.
- NUL characters inside texts, keys and values: strings of the model are C strings.
- The empty key, which would match the unused slots of the cache (`mxml/mxml_cache.c:10-22`): operations ask for a key that is not empty.
- Flatten.FlattenEdits: the two-faced `tagdata` buffer is modelled by the strings it stands for, and the branch for an empty appended value is not, since the value's length is always -1 there.
- RunAgreement.RunGetAgrees: asks, as Brackets.RunGetAgreesBracketed does, that entities end before the first tag of the text they are in.
- Brackets.RunGetAgreesBracketed: of a key that reads a total which does not count alike it says that the key names something else in the written text; that two different elements may have the same text is left to Brackets.WrittenReadsBracketed, which says what is read there.
- Documents with attributes, empty-element tags, or a comment directly after a tag, except in SpacedTags and in the results for any text: the lookup's and the tokenizer's notions of such documents differ (`mxml/mxml_cursor.c:90-93`, `mxml/mxml_flatten.c:191`).
- Keys that contain `>`, which the lookup can match across the end of a tag.
- Lists.ListIsStack: asks for a tag that does not end in a digit, which ListTags.AllPopsRight shows is needed, for less than UINT_MAX items and for room for the items' keys.
- Handshake.SentToStart: the globals and threads of `hpsdr/` are a state and its steps, not a class, since threads interleave; for a start packet over TCP the address is that of the last packet over UDP, as in the code; `seqnum`, `last_seqnum`, the sample buffers, sleeping and the content of packets are not modelled, and each statement is one step. A TCP peer that closes its side leaves the main thread in the receive loop (`hpsdr/hpsdr_network.c:170-177`), where it takes no step; a signal ends the process.
- Register decoding, configuration, sample transport and GPIO in the rest of `hpsdr/` and in `filters/`: wide but flat, or floating point handed to a library that is not part of this model.
