# budva32 forward-correlation engine, in Dafny

budva32 is a Telegram user-bot. It forwards every new message from a
configured source chat to the rule's destination chats. It keeps a table
that links each original message to its copy in each destination. When a
source message is edited, it resends the new text to each destination as
a reply to the copy the table points at. When a send succeeds, it then
points the table at the new copy.

This project models that engine as the program's `main` file writes it:

- `types.dfy`: the values exchanged with the Telegram client. These are
  messages, content kinds, updates, the answers to `ForwardMessages` and
  `SendMessage`, and the outbound calls.
- `key_format.dfy`: the table key `fmt.Sprintf("%d:%d:%d", ...)`. It is
  written out digit by digit, with a parser that inverts it, so the
  encoding is proved injective.
- `correlation_store.dfy`: `getMessageId` and `setMessageId` as `Lookup`
  and `Store` on a table keyed by the triple (source chat, source message,
  destination chat). `Encode` rebuilds the string-keyed Go map from that
  table. The `Encoded*` lemmas prove that the Go map gives the same
  answers and takes the same writes.
- `routing.dfy`: the rule list `account.Config.Forwards` and `Targets`.
  `Targets` is the sequence of destinations the handlers visit: rule
  order, then destination order, with no deduplication.
- `handlers.dfy`: specification functions for the handlers and the update
  loop. `ForwardEffect`, `EditEffect`, `MessageEditedEffect`,
  `UpdateEffect` and `ServeEffect` each give the calls issued and the
  table afterwards. The lemmas state what the handlers promise.
- `forwarder.dfy`: the class `Forwarder`. It holds the rules (`const`)
  and the table (`var messageIds`), which the methods update in place.
  The methods are written as the program's nested `for` loops. Each one
  is proved to compute its specification function. The inner loop of
  each handler is its own method: `ForwardToDestinations` and
  `SendToDestinations`.

The Telegram client is not modelled as behaviour. Each outbound call is
appended to the returned `calls` list. The client's answers come in as
parameters, one per call and in call order: `outs` for a handler, and
`Replies` for each update of the loop. `GetMessageId` is `Lookup` on the
`messageIds` field.

Four points about what the code does:

- A copy is recorded under the chat id of the message the client
  returns (`dsc.ChatId`), not under the destination `to` it was sent to.
  The edit handler reads the reply target under `to`.
  `EditEffectLookup` and `EditReplyTarget` hold for any answers. The two
  lemmas for distinct destinations also assume that a sent message lands
  in the chat it was sent to (`LandsInTarget`).
- A destination listed by two matching rules is visited twice. On the
  second visit of an edit, the reply goes to the copy that the first
  visit of the same edit just recorded, when that visit's send succeeded
  and its copy landed in that chat. Otherwise it goes to the copy
  recorded before the edit (0 when there is none).
- The edit handler checks the content kind inside the destination loop,
  once per destination. It does not abort once before the loop. The
  effect is the same: no call and no table change for other content.
- A failed fetch of an edited message is not handled gracefully by the
  code (see "Left out"). Only the successful fetch is modelled.

## Model

| member | source | states |
|---|---|---|
| `KeyFormat.IntRoundTrip` | main.go:140 | the `%d` rendering of any integer, sign included, parses back to that integer |
| `KeyFormat.ParseFormatKey` | main.go:139-145 | every key built from a triple splits at its colons and parses back to that same triple |
| `KeyFormat.FormatKeyInjective` | main.go:139-145 | two triples with the same `%d:%d:%d` key are the same triple |
| `CorrelationStore.Store` | main.go:139-141 | an upsert: the key set afterwards is the old key set plus the written key, so no key is ever lost |
| `CorrelationStore.LookupStore` | main.go:139-145 | after a write, a read of the written triple gives the written id; a read of any other triple is unchanged |
| `CorrelationStore.StoreOverwrites` | main.go:139-141 | a second write to the same triple replaces the first |
| `CorrelationStore.EncodedLookup` | main.go:143-145 | `getMessageId` on the string-keyed Go map (0 when absent) answers exactly as `Lookup` on the triple-keyed table |
| `CorrelationStore.EncodedStore` | main.go:139-141 | `setMessageId` on the string-keyed Go map yields the encoding of `Store` on the triple-keyed table |
| `CorrelationStore.EncodedEmpty` | main.go:137 | the freshly made map answers 0 for every triple |
| `Routing.TargetsAppend` | main.go:219-222 | the destinations of two rule lists in sequence are the two destination lists in sequence, so a repeated rule repeats its destinations |
| `Routing.InTargets` | main.go:220-222 | a destination is visited if and only if some rule whose `From` is the source chat lists it |
| `Routing.NoRuleNoTargets` | main.go:221 | a chat that no rule has as `From` has no destinations |
| `Handlers.ForwardEffect` | main.go:218-248 | forwarding issues one call per destination, and the table's key set only grows |
| `Handlers.ForwardEffectCalls` | main.go:220-236 | the k-th forward call goes to the k-th destination, copying the source chat's message, whatever the answers |
| `Handlers.ForwardEffectLookup` | main.go:237-244 | afterwards the entry (source chat, source message, d) holds the id of the last recorded copy that landed in d; every other entry is unchanged, including those whose forwards failed or reported a bad count |
| `Handlers.ForwardFailuresKeepTable` | main.go:237-241 | when no forward succeeds with exactly one message, the table is unchanged |
| `Handlers.EditEffect` | main.go:158-202 | resending issues one call per destination, and the table's key set only grows |
| `Handlers.EditEffectCalls` | main.go:188-196 | the k-th send goes to the k-th destination and carries the edited text |
| `Handlers.EditEffectFrame` | main.go:197-201 | an entry that no successful send wrote to is unchanged, so a failed send leaves its entry as it was |
| `Handlers.EditEffectLookup` | main.go:188-201 | afterwards the entry (source chat, source message, d) holds the id of the last successful send that landed in d; every other entry is unchanged, including those whose sends failed; a destination listed twice keeps the later copy |
| `Handlers.EditReplyTarget` | main.go:188-196 | the k-th send replies to the copy an earlier send of the same edit put in its destination chat, if any, and otherwise to the copy recorded before the edit (0 when none) |
| `Handlers.EditThreadsOntoRecordedCopy` | main.go:188-201 | the special case of distinct destinations that each send lands in: each send replies to the copy recorded before the edit (0 when none); afterwards the entry holds the new copy on success and the old value on failure |
| `Handlers.SecondEditThreadsOntoLatestCopy` | main.go:195-200 | with distinct destinations that each send lands in, a second edit replies to the copies the first edit sent, not to the original forwards |
| `Handlers.MessageEditedEffect` | main.go:156-205 | every call of the edit handler is a send of the content's text; content without text issues no call and leaves the table unchanged |
| `Handlers.UpdateEffect` | main.go:95-110 | an edited-message update first fetches the message, a new-message update issues only forwards, and the key set only grows |
| `Handlers.ServeEffect` | main.go:94-111 | over the whole update stream, the table's key set only grows |
| `Handlers.OtherUpdatesChangeNothing` | main.go:94-111 | updates that are neither new nor edited messages issue no calls and leave the table unchanged |
| `Handlers.ServeTwo` | main.go:94-111 | two updates are handled one after the other: the calls of the second follow those of the first, and the second starts from the table the first left |
| `Handlers.ForwardThenEditScenario` | main.go:97-108 | one rule 100 to [200, 300], any texts and any copy ids: message 100/1 is forwarded to both; its edit is fetched and its new text resent to both as replies to the forwarded copies; the table then points at the resent copies |
| `Forwarding.Forwarder.constructor` | main.go:137 | the table starts empty and the rules are those loaded |
| `Forwarding.Forwarder.SetMessageId` | main.go:139-141 | the field becomes `Store` of its old value, and the written triple reads back as the written id |
| `Forwarding.Forwarder.ForwardNewMessage` | main.go:218-248 | the nested loops issue exactly the calls of `ForwardEffect` over `Targets` and leave the table it gives |
| `Forwarding.Forwarder.ForwardToDestinations` | main.go:222-245 | the inner loop over one rule's destinations computes `ForwardEffect` for that list |
| `Forwarding.Forwarder.ForwardMessageEdited` | main.go:156-205 | the nested loops issue exactly the calls of `MessageEditedEffect` and leave the table it gives |
| `Forwarding.Forwarder.SendToDestinations` | main.go:160-202 | the inner loop over one rule's destinations computes `EditEffect` for that list, or does nothing for content without text |
| `Forwarding.Forwarder.HandleUpdate` | main.go:95-110 | one update is handled as `UpdateEffect` says |
| `Forwarding.Forwarder.Serve` | main.go:94-111 | the update loop handles every update in arrival order, as `ServeEffect` says |

## Left out

- Process setup: the `.env` file, reading the account configuration,
  TDLib parameters, the authorizer, the log stream, `GetOption` and
  `GetMe`. These are I/O and foreign-library plumbing. The loaded rules
  are the constructor's parameter.
- Signal handling and the sleep loop after the update channel closes.
  These are concurrency and process exit.
- The scheduling date `int32(time.Now().Unix())` of a forward. It is a
  wall-clock read with no effect on the table.
- `convertToInt32`. It is used only for setup.
- The TDLib calls `ForwardMessages`, `SendMessage` and `GetMessage`. They
  are abstract answers supplied as inputs. The send options
  (`DisableWebPagePreview`, `ClearDraft`, notification flags,
  `SendCopy`, `RemoveCaption`) are not part of the recorded calls.
- A failed `GetMessage`. `getMessage` logs the error and returns a nil
  message, and `forwardMessageEdited` then dereferences it. The model
  has only the successful fetch: the fetched content is an input, and
  the message carries the update's chat and message ids.
- A `Forwarded` answer with `TotalCount` 1 but no messages, or a nil
  `Messages[0]`. The code would index or dereference it and crash. The
  `ForwardAnswer` type excludes the empty list, and nil entries are not
  representable.
- Formatting entities of `FormattedText`, and a nil `Text` or `Caption`
  pointer. Text is a plain string.
- The `update.GetClass() == client.ClassUpdate` test. Every value of
  `Update` is an update. The order of the edited/new type assertions has
  no effect, because the two kinds are distinct variants.
- Logging output.
- The `account` package. Only the rule shape `{From, To}` that the
  handlers read is modelled.
