# Chat-box message state, modelled in Dafny

This project models how the Chat-box application keeps message state consistent between its
server and its browser clients. The server side is the message document schema, the socket
presence registry, the message handlers and the message router. The client side is the chat
store and the message composer. Every operation is a pure function. It takes the state, the
request or event, and the outcome of whatever it cannot see (the clock, the database being up,
the image host's answer, the random file-name prefix, the outcome of a REST call). It returns the
new state together with the response, the socket pushes or the requests it produced.

Modules, in dependency order:

- `Wrappers` and `Common` (wrappers.dfy): `Option`, `Outcome`, JavaScript truthiness of an
  optional string, identifiers, and the `File` a user picks.
- `JsStrings` (js_strings.dfy): `String.prototype.trim` with the ECMAScript whitespace set,
  `startsWith`, ASCII `toLowerCase`, and substring search, which is what an unanchored
  regular-expression alternation test amounts to.
- `MessageModel` (message_model.dfy): the stored message and the schema's creation rules.
- `Presence` (presence.dfy): the user-to-connection map, connect, disconnect, and the
  online-list broadcasts.
- `MessageController` (message_controller.dfy): the conversation query, the three send
  handlers, and bulk mark-seen with its `messageSeen` fan-out.
- `MessageRoutes` (message_routes.dfy): upload filters, the size limit, stored file names, the
  two upload routes composed with their handlers, and first-match dispatch over the route table.
- `ChatStore` (chat_store.dfy): the client store. It covers the history fetch with its
  optimistic read receipts, the three sends, subscribe and unsubscribe, and the `newMessage` and
  `messageSeen` handlers.
- `Composer` (composer.dfy): the message input. It covers the submit plan and the image and PDF
  pickers.
- `Scenarios` (scenarios.dfy): end-to-end runs from a send to the sender's read tick.

In these places the code does something a reader might not expect; the model follows the code:

- An image-only or PDF-only message has no `text` field. Only the JSON send handler stores
  `text || ""`.
- No handler checks that a message has some content.
- The close handler deletes the user's entry without checking that it still belongs to the
  closing connection.
- The mark-seen fan-out re-fetches every listed id without the receiver filter. Messages the
  caller sent, and messages that were already seen, are pushed too.

## Model

| member | source | states |
|---|---|---|
| `MessageModel.Create` | backend/src/models/message.model.js:3-30 | a draft is saved exactly when both participant ids are present; a refused draft names exactly the missing ones, both when both are missing; content is stored as given, `seen` defaults to false, and both timestamps are the creation time |
| `MessageModel.SeenDefaultsToFalse` | backend/src/models/message.model.js:24-27 | a draft that leaves `seen` unset is stored unseen |
| `MessageModel.NoContentIsAccepted` | backend/src/models/message.model.js:15-23 | a draft with no text, image or document is still saved, because all three fields are optional |
| `MessageModel.MarkedSeen` | backend/src/controllers/message.controller.js:93-96 | setting the receipt raises `seen`, stamps the update time with the update's clock as the schema's timestamps do, and leaves identity, participants, content and creation time untouched |
| `JsStrings.Trim` | frontend/src/components/MessageInput.jsx:49 | the result is an infix of the input, everything cut from either end is whitespace, and neither end of the result is whitespace |
| `JsStrings.TrimEmptyIff` | frontend/src/components/MessageInput.jsx:49 | the trimmed text is empty exactly when the text is all whitespace |
| `JsStrings.Contains` | backend/src/routes/message.route.js:70-72 | the test succeeds exactly when the pattern occurs at some position of the string |
| `JsStrings.ToLower` | backend/src/routes/message.route.js:71 | each character is lower-cased on its own and the length is kept |
| `Presence.Lookup` | backend/src/lib/socket.js:14-16 | a user has a connection exactly when the user is registered, and it is the registered one |
| `Presence.KeyOf` | backend/src/lib/socket.js:29-31 | the key a close deletes is the handshake's user id, and `undefined` becomes the string key "undefined" |
| `Presence.Connect` | backend/src/lib/socket.js:23-26 | a truthy claimed id is bound to the new connection, replacing any earlier binding; no other entry changes; the new online set is broadcast |
| `Presence.Disconnect` | backend/src/lib/socket.js:29-33 | the handshake's key is removed whatever it is bound to; no other entry changes; the new online set is broadcast |
| `Presence.ReplayRegistry` | backend/src/lib/socket.js:20-34 | after any run of opens and closes, a user is bound to a connection exactly when some open bound it there and no later event touched that user |
| `Presence.ReplayBroadcasts` | backend/src/lib/socket.js:26-32 | every event broadcasts exactly once, and the k-th broadcast is the online set right after the k-th event |
| `Presence.StaleCloseEvictsNewerConnection` | backend/src/lib/socket.js:29-33 | when a user reconnects before the old connection closes, the stale close takes the user offline |
| `MessageController.PushTo` | backend/src/controllers/message.controller.js:76-79 | an event is pushed to a user's connection exactly when the user is online |
| `MessageController.Between` | backend/src/controllers/message.controller.js:26-30 | the result holds each stored message exchanged between the two users, either direction, with its stored multiplicity, and nothing else |
| `MessageController.InsertByCreation` | backend/src/controllers/message.controller.js:31 | inserting into a creation-sorted list keeps it sorted and adds exactly that message |
| `MessageController.SortByCreation` | backend/src/controllers/message.controller.js:31 | the result is sorted by creation time and is a permutation of the input |
| `MessageController.GetMessages` | backend/src/controllers/message.controller.js:21-38 | a store failure gives a 500 and a working store always gives the conversation; the conversation is in ascending creation order, as a permutation of the pair's stored messages |
| `MessageController.BetweenSymmetric` | backend/src/controllers/message.controller.js:26-30 | the `$or` filter does not depend on which party asks |
| `MessageController.ConversationSymmetric` | backend/src/controllers/message.controller.js:21-38 | both parties of a pair fetch the same conversation |
| `MessageController.Deliver` | backend/src/controllers/message.controller.js:73-79 | the message is appended to the store, earlier pushes are kept, and one `newMessage` push goes to the receiver's connection exactly when the receiver is online |
| `MessageController.SendMessage` | backend/src/controllers/message.controller.js:40-86 | a 201 happens exactly when the store is up and any truthy image reached the image host; the stored text is the body's text or ""; the image URL and the document path are set exactly when their inputs are truthy; the message is new and unseen and is delivered; a failure leaves the server unchanged |
| `MessageController.SendMessageWithPdf` | backend/src/controllers/message.controller.js:123-155 | with no file the reply is 400 and nothing changes; with a file it is 500 if the store is down, else a delivered document-only message pointing at the uploaded file |
| `MessageController.SendMessageWithImage` | backend/src/controllers/message.controller.js:158-192 | with no file the reply is 400 and nothing changes; with a file it is 500 if the store is down, else a delivered image-only message pointing at the served image |
| `MessageController.DeliverPushesIffOnline` | backend/src/controllers/message.controller.js:75-79 | a send adds exactly one push, to the receiver's connection, when the receiver is online, and none otherwise |
| `MessageController.UpdateSeen` | backend/src/controllers/message.controller.js:93-96 | exactly the listed, unseen messages addressed to the caller are marked seen, and every other message is unchanged |
| `MessageController.CountIsNumFlipped` | backend/src/controllers/message.controller.js:93-116 | the reported count equals the number of messages whose receipt went from unseen to seen |
| `MessageController.Refetch` | backend/src/controllers/message.controller.js:99 | the re-fetch returns exactly the stored messages whose id is listed, whoever they belong to, each as many times as it is stored |
| `MessageController.FanOut` | backend/src/controllers/message.controller.js:101-110 | every push is a `messageSeen` of a re-fetched message to its receiver or sender, each re-fetched message reaches both of them when they are online, and the number of pushes is exactly the number of online parties summed over the messages: one push per online party, so a message a user sent to themselves reaches their connection twice |
| `MessageController.MarkMessagesAsSeen` | backend/src/controllers/message.controller.js:88-121 | a failed update gives a 500 and nothing changes; a successful one flips exactly the eligible messages and leaves presence alone; with nothing flipped the reply is a count of zero and nothing is pushed; otherwise a failed re-fetch gives a 500 with the flips kept and nothing pushed, and a successful one replies with the number flipped and adds the fan-out of the re-fetched listed messages |
| `MessageController.NothingEligibleAfterUpdate` | backend/src/controllers/message.controller.js:93-96 | after the update, no stored message still matches its filter |
| `MessageController.UpdateWithoutMatchIsIdentity` | backend/src/controllers/message.controller.js:93-98 | an update that matches nothing changes no message and counts zero |
| `MessageController.MarkSeenIdempotent` | backend/src/controllers/message.controller.js:88-121 | repeating a mark-seen with the same ids changes nothing, counts zero and pushes nothing, even when the first call's re-fetch failed |
| `MessageController.MarkSeenOnlyRaisesSeen` | backend/src/controllers/message.controller.js:93-96 | mark-seen never lowers a receipt and changes nothing but receipts and update times |
| `MessageController.FanOutCoversEveryListedMessage` | backend/src/controllers/message.controller.js:98-110 | once anything was flipped, every stored message with a listed id is pushed to its online receiver and to its online sender |
| `MessageRoutes.Extname` | backend/src/routes/message.route.js:40 | the extension is empty or a single dot followed by no further dot, and it never contains a path separator |
| `MessageRoutes.StoredName` | backend/src/routes/message.route.js:38-41 | the stored name starts with the unique prefix |
| `MessageRoutes.ExtnameOfPlainName` | backend/src/routes/message.route.js:40 | for a name without '/' whose last '.' is not at the start, the extension runs from that dot to the end |
| `MessageRoutes.StoredNameKeepsExtension` | backend/src/routes/message.route.js:38-41 | a stored file has the same extension as the file the client uploaded |
| `MessageRoutes.NoImageType` | backend/src/routes/message.route.js:70-72 | a string without the distinguishing letters of jpeg, jpg, png, gif and webp fails the image-type test |
| `MessageRoutes.ImageFilterLowersExtension` | backend/src/routes/message.route.js:71 | any PNG whose extension is written ".PNG" passes, because the extension is lower-cased before the test |
| `MessageRoutes.ImageFilterKeepsMimeCase` | backend/src/routes/message.route.js:72 | any file declared as "image/PNG" is refused, whatever its name, because the mimetype is not lower-cased |
| `MessageRoutes.ImageFilterRefusesSvg` | backend/src/routes/message.route.js:69-77 | any file named with the ".svg" extension is refused, whatever type it declares |
| `MessageRoutes.ImageFilterUnanchored` | backend/src/routes/message.route.js:70-73 | the test is unanchored: any file with extension ".gifx" and a mimetype that mentions "gif" anywhere passes |
| `MessageRoutes.Upload` | backend/src/routes/message.route.js:44-80 | there is no file exactly when none was sent; a file is stored exactly when its kind's filter accepts it and it is at most 50 MiB, under the prefix plus its extension; anything else is an error |
| `MessageRoutes.PostSendPdf` | backend/src/routes/message.route.js:87 | no file gives 400; a refused or oversized file gives 500 before the handler runs; an accepted PDF with the store down gives 500 and nothing changes; a 201 happens exactly for an accepted PDF with the store up, and then a new unseen document-only message pointing at the stored file is stored and delivered |
| `MessageRoutes.PostSendImage` | backend/src/routes/message.route.js:88 | no file gives 400; a refused or oversized file gives 500 before the handler runs; an accepted image with the store down gives 500 and nothing changes; a 201 happens exactly for an accepted image with the store up, and then a new unseen image-only message pointing at the stored file is stored and delivered |
| `MessageRoutes.PostSend` | backend/src/routes/message.route.js:85 | without upload middleware, a created message has text and never a document |
| `MessageRoutes.FirstMatchFrom` | backend/src/routes/message.route.js:83-88 | the route found is the first matching registration from the start point, and none is found only when no later registration matches |
| `MessageRoutes.Dispatch` | backend/src/routes/message.route.js:83-88 | a request goes to the first registered route that matches its verb and path, and to none when no route matches |
| `MessageRoutes.EveryRouteProtected` | backend/src/routes/message.route.js:83-88 | authentication runs first on every message route |
| `MessageRoutes.UsersIsNotAPeerId` | backend/src/routes/message.route.js:83-84 | a GET of "users", in any letter case, reaches the sidebar listing; every other non-empty segment is taken as a peer id |
| `ChatStore.MarkLocallySeen` | frontend/src/store/useChatStore.js:40-46 | the list keeps its length and order, exactly the messages with a listed id are shown as seen, and nothing else about any message changes |
| `ChatStore.UnseenFor` | frontend/src/store/useChatStore.js:32-34 | the result holds exactly the fetched messages addressed to the signed-in user and not yet seen |
| `ChatStore.IdsOf` | frontend/src/store/useChatStore.js:38 | the ids are listed in the messages' order |
| `ChatStore.GetMessages` | frontend/src/store/useChatStore.js:25-64 | a failed fetch changes nothing; a successful one replaces the list and raises only receipts; a mark-seen call goes out exactly when a signed-in user has unseen messages in the reply, naming them; they are shown as seen whatever that call's outcome |
| `ChatStore.UnseenIdsAreTwins` | frontend/src/store/useChatStore.js:41-45 | a message is flipped exactly when some unseen message addressed to the signed-in user has its id |
| `ChatStore.FetchFlipsExactlyUnseenForMe` | frontend/src/store/useChatStore.js:28-56 | with unique ids, exactly the fetched messages addressed to the signed-in user and unseen are shown as seen, and the rest are shown as fetched |
| `ChatStore.SendMessage` | frontend/src/store/useChatStore.js:66-77 | with no selected user nothing is sent and nothing changes; otherwise the text goes to the selected user, and only a successful reply is appended to the list as it was when the send began; the selection and the subscriptions are never changed |
| `ChatStore.SendPdf` | frontend/src/store/useChatStore.js:79-103 | with no selected user nothing is sent and nothing changes; otherwise the PDF goes to the selected user, and only a successful reply is appended; the selection and the subscriptions are never changed |
| `ChatStore.SendImage` | frontend/src/store/useChatStore.js:105-129 | with no selected user nothing is sent and nothing changes; otherwise the image goes to the selected user, and only a successful reply is appended; the selection and the subscriptions are never changed |
| `ChatStore.SetSelectedUser` | frontend/src/store/useChatStore.js:198 | only the selection changes |
| `ChatStore.Subscribe` | frontend/src/store/useChatStore.js:131-143 | one more handler pair is registered, bound to the selected and signed-in users, exactly when a user is selected and both a socket and a signed-in user exist; otherwise nothing changes |
| `ChatStore.Unsubscribe` | frontend/src/store/useChatStore.js:190-196 | with a socket every handler pair is removed; without one nothing changes |
| `ChatStore.HandleNewMessage` | frontend/src/store/useChatStore.js:143-174 | a message from another conversation is ignored; one for the open conversation is appended; if it is unseen and addressed to the signed-in user, one mark-seen call names it, it is shown as seen either way, and `messageSeen` is emitted only on success |
| `ChatStore.RunNewMessage` | frontend/src/store/useChatStore.js:143-174 | running every registered handler never shortens the list and only raises receipts of the messages already shown |
| `ChatStore.OnNewMessage` | frontend/src/store/useChatStore.js:143-174 | a push leaves the selection and the subscriptions alone, and without subscriptions it does nothing |
| `ChatStore.RunMessageSeen` | frontend/src/store/useChatStore.js:176-182 | with at least one handler, the messages with the pushed id are flipped, and repeating the handler adds nothing; with none, nothing changes |
| `ChatStore.OnMessageSeen` | frontend/src/store/useChatStore.js:176-182 | a `messageSeen` push only raises receipts, exactly those with the pushed id when subscribed; with no subscription, or when that id is not shown, nothing changes |
| `ChatStore.NewMessageAppendedIffForChat` | frontend/src/store/useChatStore.js:144-151 | with one handler pair, a pushed message is appended exactly when it belongs to the open conversation |
| `ChatStore.ReceiptFlipRegardlessOfOutcome` | frontend/src/store/useChatStore.js:153-171 | the local flip is the same whether the mark-seen call succeeds or fails, and only success emits `messageSeen` |
| `ChatStore.DoubleSubscriptionDuplicates` | frontend/src/store/useChatStore.js:131-188 | with two handler pairs registered, each push of the open conversation is appended twice; an unseen push addressed to the signed-in user is shown seen both times and its receipt is requested twice |
| `ChatStore.NoHandlerClearsSeen` | frontend/src/store/useChatStore.js:66-182 | neither push handler and none of the three sends lowers a receipt already shown |
| `Composer.PlanFor` | frontend/src/components/MessageInput.jsx:52-71 | the calls are exactly the wanted ones (attached PDF, shown image, non-blank text without image), each once, PDF before image before text |
| `Composer.Plan` | frontend/src/components/MessageInput.jsx:47-76 | the plan for a submit is the wanted calls for the trimmed text, in order |
| `Composer.SentTextIsTrimmed` | frontend/src/components/MessageInput.jsx:68-69 | text sent is non-empty and has no whitespace at either end |
| `Composer.HandleSendMessage` | frontend/src/components/MessageInput.jsx:47-76 | a submit makes no call exactly when the send button is disabled, and then nothing changes; otherwise it makes the planned calls and clears the PDF and the image, and clears the text only if it was sent |
| `Composer.SetText` | frontend/src/components/MessageInput.jsx:121 | only the text changes |
| `Composer.PickImageAsWritten` | frontend/src/components/MessageInput.jsx:14-26 | the file input always takes the pick, while the preview changes only for an image type |
| `Composer.PickImage` | frontend/src/components/MessageInput.jsx:14-26 | an image pick sets both the input and the preview; any other pick changes nothing |
| `Composer.RemoveImage` | frontend/src/components/MessageInput.jsx:28-31 | the preview and the file input are both cleared, and nothing else changes |
| `Composer.PickPdf` | frontend/src/components/MessageInput.jsx:33-40 | only a file of type application/pdf is attached; any other pick changes nothing |
| `Composer.RemovePdf` | frontend/src/components/MessageInput.jsx:42-45 | only the attached PDF is cleared |
| `Composer.Apply` | frontend/src/components/MessageInput.jsx:14-76 | every interaction keeps the file input holding the previewed file |
| `Composer.ImageSentIsImageShown` | frontend/src/components/MessageInput.jsx:60-62 | with the corrected picker, after any interactions the image a submit uploads is the one previewed |
| `Composer.RejectedPickIsUploaded` | frontend/src/components/MessageInput.jsx:14-62 | with the picker as written, a non-image picked after an image leaves the old preview shown, and the next submit uploads the rejected file |
| `Composer.TextFileAfterPng` | frontend/src/components/MessageInput.jsx:16-19 | picking "notes.txt" after "cat.png" and submitting uploads "notes.txt" |
| `Scenarios.OfflineSendPushesNothing` | backend/src/controllers/message.controller.js:75-79 | a text sent to an offline user is stored and pushed to nobody |
| `Scenarios.PushedMessageShownAsSeen` | frontend/src/store/useChatStore.js:143-171 | a text sent to an online user who has the conversation open is pushed to that user, shown there as seen, and answered with a mark-seen call naming it |
| `Scenarios.ReceiptReachesSender` | backend/src/controllers/message.controller.js:98-110 | the receiver's mark-seen of a message with a unique id counts one and pushes the updated message to the online sender, whose open conversation then shows it as seen |
| `Scenarios.FlipCount` | backend/src/controllers/message.controller.js:93-116 | when exactly one stored message is listed and eligible, the count is one |
| `Scenarios.NoFlips` | backend/src/controllers/message.controller.js:93-96 | when no stored message is listed, the count is zero (the induction helper for `Scenarios.FlipCount`) |

## Left out

- Authentication (`protectRoute`), the user model and `getUsersForSidebar` are not part of this
  model. The route table only records that authentication runs first and which handler a request
  reaches.
- The server entry point (backend/src/index.js) is not part of this model. It covers static
  serving, CORS, JSON body limits and start-up.
- Database keys are strings, and the model does not tell well-formed ids from malformed ones.
  In the source, an id the store cannot cast makes the store call throw, and the handler answers
  500. That covers a malformed receiver id in the three send handlers, a malformed peer id in the
  conversation query and a malformed listed id in mark-seen. Here such a call is one of the ways
  the store-failure parameter (`dbUp`, or `updateOk` for mark-seen) is false. With that parameter
  true, a malformed id is treated like any other string.
- Sorting: creation-time ties keep insertion order here. The store does not promise any tie
  order.
- Online lists are broadcast as sets. `Object.keys` ordering and prototype-chain keys such as
  "__proto__" are not modelled.
- Routing: URL decoding, trailing slashes, HEAD requests, and the 404 for unmatched paths are
  not modelled. Letter case is folded for ASCII only.
- `ToLower` folds ASCII letters only. `path.extname` is modelled for POSIX separators.
- The random stored-file prefix and the image host's upload are parameters. The model does not
  look at what the host stores.
- Multer streams a file and stops at the size limit. Here a file is refused when its whole size
  is over 50 MiB. Multer's errors become the framework's default 500, whose body the model does
  not describe.
- The client's remote calls are modelled as settled in order. The model does not cover
  interleavings where a push arrives while a send or a mark-seen call is in flight. In the source,
  a send appends to the list read when the send began, so a push arriving meanwhile can be lost.
- Loading flags, toasts, console output and date formatting are presentation and are left out.
- The `messageSeen` event a client emits has no server handler in the source. It is recorded
  as an effect and goes nowhere.
- The image preview's `FileReader` load is asynchronous. It is modelled as finished before the
  next interaction.
- `ChatStore.OnNewMessage`: its own contract states only what a push leaves alone. What each
  handler pair does is stated by `ChatStore.HandleNewMessage`, and the one- and two-subscription
  cases are stated by lemmas.
- `ChatStore.RunNewMessage`: its contract bounds the change to appending and raising receipts.
  The exact result is stated by the lemmas for one and two handler pairs.
- `MessageRoutes.PostSend`: its contract states only what the missing upload middleware implies.
  The rest is `MessageController.SendMessage`'s contract.
- `MessageRoutes.StoredName`: its contract states only the prefix. The kept extension is stated
  by `MessageRoutes.StoredNameKeepsExtension`.

## Findings

| source | as written | input that shows it | evidently intended | confidence | as-written member | corrected member |
|---|---|---|---|---|---|---|
| frontend/src/components/MessageInput.jsx:14-19 | a non-image pick is refused with a toast. The hidden file input still holds the refused file, and the image submit (line 61) uploads whatever that input holds. | pick cat.png (image/png), then notes.txt (text/plain), then submit: the preview still shows cat.png, and notes.txt is uploaded | a refused pick leaves the input holding the previewed image, so the uploaded file is the one shown | medium, not executed | `Composer.PickImageAsWritten` (with `Composer.RejectedPickIsUploaded`, `Composer.TextFileAfterPng`) | `Composer.PickImage` (with `Composer.Apply`, `Composer.ImageSentIsImageShown`) |
