# Verification of frag

frag is a chat whose messages are encrypted in the browser, cut into as many
chunks as the chat has servers, and posted one chunk to each server. A server
is an insert-or-ignore table with delete, expiry and a `timestamp > since`
query behind a hand-written HTTP front. A receiver polls all servers, groups
the rows by message id and server position, joins and decrypts the complete
messages, and moves a cursor. No row stores its position, no message stores its
number of chunks, and the cursor is one number for all servers: that receivers
see exactly what was sent, and miss nothing, rests on invariants that no single
function shows.

This project models that system in Dafny and proves those invariants, over all
inputs and all runs. `dafny verify dfyconfig.toml` checks everything.

## How the model is built

| file | module | models |
|---|---|---|
| `Text.dfy` | `Options`, `Text` | `find`, `split`, `trim`, `to_lower`, C-string binding |
| `Numerals.dfy` | `Numerals` | decimal printing, `stoll`, `stoull` |
| `Query.dfy` | `Query` | `encodeURIComponent`, what `fetch` makes of a path and a query, `url_decode`, `parse_query` |
| `Json.dfy`, `Wire.dfy` | `Json`, `Fragments`, `Wire` | the JSON printer and the first-occurrence reader |
| `Base64.dfy` | `Base64` | `base64_encode`, `base64_decode` |
| `Payload.dfy` | `Payload` | `splitPayload`, `joinPayload`, IV framing |
| `RateLimiter.dfy` | `RateLimiting` | `RateLimiter::allow` and its table |
| `Router.dfy` | `Routing` | `match_pattern`, the dispatch loop, the route table |
| `Http.dfy` | `Http` | `read_and_parse` over a sequence of received chunks |
| `Store.dfy`, `Handlers.dfy` | `Store`, `Handlers` | the fragments table; the POST and GET handlers; runs of one server |
| `Requests.dfy` | `Requests` | a whole connection: rate limit, reading, parsing, token, routes, handlers, table |
| `Polling.dfy`, `Accounts.dfy`, `Sharing.dfy`, `Client.dfy` | same, `Clients` | `pollChat` on values; unread counters; export and import; the client's state and calls |
| `Protocol.dfy` | `Protocol` | all senders, servers and receivers as one step system; integrity of every run |
| `Connected.dfy` | `Connected` | the protocol's steps are what servers do to the client's requests, byte by byte |
| `Delivery.dfy` | `Delivery` | no message is skipped, under one order and forward clocks |
| `Timely.dfy` | `Timely` | the same hypotheses as a condition on each post |
| `Arrival.dfy` | `Arrival` | the order in which messages stand in a list |
| `ChatRows.dfy` | `ChatRows` | what the steps do to the rows of one message |
| `Loss.dfy` | `Loss` | what a full poll delivers, exactly; which messages are lost for good |
| `Revival.dfy` | `Revival` | when a message is out of reach, exactly |
| `Example.dfy` | `Example` | two messages that can be sent, in general and concretely |
| `Skipped.dfy` | `Skipped` | a run that loses one of them although nothing failed |
| `HappyRun.dfy` | `HappyRun` | a run under the hypotheses of `Delivery` that delivers both |

Functions say what a piece of code computes, methods with loops do it the way
the code does and are proved to agree with the functions, and the lemmas are
about the functions. The methods of the class `Client` and of the server
handlers and the steps of `Protocol` share these functions: a `Post` step sends
the text of `sendMessage` through the POST handler's own reader, a `Fetch` step
sends the text of `getFragments` through the GET handler's query parser.
`Connected` proves that these steps are what a server does when the bytes of the
client's requests reach it in any chunks.

## Assumptions

They stand in the statements, as `requires` clauses or in the predicates named.

- The servers resolved for a chat are distinct, and sender and receivers
  resolve the same list in the same order (`Protocol.Agreed`).
  `Sharing.ExportImportAgree` says exactly when the second part holds of a chat
  passed on by export and import; `filter(Boolean)` at `frontend/js/app.js:359`
  breaks it when a server was removed.
- Message ids are fresh, and ids, chat ids and hashes are printable and not
  mistaken for a JSON key (`Handlers.Sendable`); `Example.PlainIsGood` shows
  that UUIDs and hexadecimal hashes are such.
- The cipher opens what it sealed and appends a 16-byte tag (`Payload.Lawful`).
  The cipher, the UTF-8 coders, generated ids, IVs and clocks are parameters.
- Each call of `Database` is one atomic step. A client's own polls and sends do
  not overlap: a poll starts only when none is in flight.
- `RateLimiter::allow` reads the clock before it takes its mutex
  (`backend/src/rate_limiter.hpp:29-30`), so readings may reach the table late.
  `RateLimiting.SlidingBound` and the promise below are about readings in clock
  order (`Ordered`); `RateLimiting.SkewedBound` and `RateLimiting.LateExactly`
  say what holds of late ones (`Skewed`).
- Texts on the server side are byte strings.

## Where the code and its documentation disagree

The model follows the code; each disagreement is a proved statement.

- `TECHNICAL_GUIDE.md:209` says that a message with a missing chunk is skipped
  until the missing server comes back. `Skipped.SkippedForGood` is a run in
  which it never comes back, `Skipped.HelloIsLost` a concrete one.
  `Loss.LateDelivery` says exactly when it does: when every chunk already
  stored, and every stamp that a returning server gives to a missing one, lies
  after the cursor. A server whose clock is behind fails it too.
- `TECHNICAL_GUIDE.md:229` says that messages are re-fetched on page reload. The
  cursor is stored and reloaded (`frontend/js/app.js:140-146`, `433-436`), so
  `Loss.ReloadForgets`: nothing that the cursor has reached is shown again, and
  `Loss.PolledIsForgotten`: that is every message a full poll delivered.
- `backend/src/rate_limiter.hpp:10` promises at most `max` requests in any 60
  seconds. `RateLimiting.PromiseExactly`: for the runs whose first reading is
  at or after some moment this holds if and only if `max == 1` and that moment
  is 60 seconds past the clock's epoch. The proved bounds are `2 * max`, and
  `2 * max - 1` past the first minute; both are reached. Readings that reach the
  lock 2 ns late add up to `max - 1` more (`RateLimiting.LateReadings`).
- `frontend/js/crypto.js:76` says that the last part may be longer.
  `Payload.ChunkLengths`: no chunk is longer than the one before it. With nine
  servers a text of at most two bytes leaves the last chunk empty
  (`Payload.NineServersShortText`), and the POST handler refuses it.
- The JSON reader does not read the `u00hh` escapes its own printer writes
  (`Json.RereadExact`), and a value that is a key, or ends in a quote followed by
  one, is taken for that key (`Wire.FragmentJsonReadBack`): of a payload "ttl" the
  timestamp is returned as the ttl (`Wire.PayloadIsTtl`).
- The POST handler checks that strings are not empty before the C-string
  binding cuts them at the first NUL (`Handlers.FilledExactly`); a body whose
  payload is one NUL byte stores an empty payload (`Handlers.NulIsStoredEmpty`).
- `addServer` drops one trailing slash of a url and every request one more
  (`frontend/js/network.js:22`), so importing a stored url that ends in two
  slashes addresses another server (`Sharing.ExportImportAgree`). A url typed as
  "http://a///" does so, and every further import of its invite adds a server
  (`Sharing.TrailingSlashesDisagree`).
- `encodeURIComponent` is undone before the path is split, and `fetch` resolves
  dot segments, which `encodeURIComponent` leaves. The client's DELETE reaches
  the row of an id if and only if the id is not empty, holds no slash and is
  neither "." nor ".." (`Requests.DeleteReachesExactly`); with one slash at its
  end it deletes another row (`Requests.EndingSlashDeletesAnother`).

## Model

| member | source | states |
|---|---|---|
| Protocol.Integrity | frontend/js/app.js:291-442 | after any interleaving of joins, sends, lost, repeated and late posts, deletes, purges, fetches at different moments, failed fetches, polls and reloads, every message in any client's list has the id, sender and text of one actual send in that chat |
| Protocol.StepKeeps | frontend/js/app.js:312-422 | every step keeps the inductive invariant: each stored row of message m on server i is chunk i of m's ciphertext with m's ids, sender and ttl, ids in a table are unique, and every result in flight holds only such rows |
| Protocol.PostAdds | backend/src/handlers.cpp:116-158 | the body sendMessage posts, read by the handler's own reader, adds exactly the piece stamped by the server, or nothing: when it is too large, a string is empty or the id is present |
| Protocol.AnswerMeaning | backend/src/handlers.cpp:160-185 | the text getFragments sends is answered with exactly the chat's rows stamped strictly after the cursor |
| Protocol.RowIsPiece | frontend/js/app.js:312-324 | a row of message m on the chat's i-th server is piece i of m, though no position is stored: the servers are distinct |
| Protocol.AssembledOk | frontend/js/app.js:396-422 | a message for which every server's result has a row is joined and decrypted to exactly what was sent |
| Delivery.NothingSkipped | frontend/js/app.js:389-436 | if every server receives the chat's messages in one order, each piece of a later message is stamped after the first server's stamp of an earlier one and no row is lost, then after every such run, with any failed polls and page reloads, the cursor is below every stored piece of every message the client was never shown |
| Delivery.NextPollDelivers | frontend/js/app.js:357-442 | under the same hypotheses, once all pieces of a message are stored, the next poll that ends and in which no fetch fails shows it if it was not shown before, however its fetches interleave with other steps; without a reload inside the poll it is then in the list |
| Delivery.AnchoredIsAhead | frontend/js/app.js:389-436 | a cursor that is the first server's stamp of a message up to which all were shown is below every piece of every other message |
| Delivery.StepKeepsSafe | frontend/js/app.js:365-436 | every step keeps it, a reload included: the cursor stays such a stamp, and a result in flight has, with each row, every earlier message still to be shown |
| Delivery.AddedUpTo | frontend/js/app.js:394-431 | a poll that adds a message holds afterwards every earlier one, though its fetches saw different moments |
| Delivery.SeenIsHeld | frontend/js/app.js:140-146 | without a reload in a run what was shown is what is in the list |
| Timely.StepKeepsOrder | frontend/js/app.js:312-328 | a step that loses no row keeps the order and clock hypotheses if and only if it adds no piece to the chat, or one that comes after every earlier message's piece on its server and the first server's stamps of earlier messages, and, as a first piece, before every later message's stamps |
| Timely.RowKeepsOrder | backend/src/database.cpp:60-80 | the same for one more row in a table |
| Timely.TimelyIsOrderly | frontend/js/app.js:312-328 | from an orderly state the runs whose states all meet the hypotheses are exactly those whose posts come in time |
| Timely.TimelyNothingSkipped | frontend/js/app.js:389-436 | so it is enough that every accepted post comes in time: then, with any reloads, the cursor is below every stored piece of every message never shown, after every run |
| Arrival.ReceivedInStampOrder | frontend/js/app.js:375-431 | after every run, whatever failed, the received messages of a list stand in the order of the first server's stamps, none stamped past the cursor |
| Arrival.ReceivedInRankOrder | frontend/js/app.js:375-431 | under the hypotheses of `Delivery` they stand in the order in which they were sent |
| Polling.AddedAscends | frontend/js/app.js:375-431 | one poll adds messages in the order of the first server's stamps |
| HappyRun.DeliveredInTurn | frontend/js/app.js:357-442 | for every two messages that can be posted to a chat with two or more servers, posting them one after the other with forward clocks, a failed poll, a reload and a full poll is a run under the hypotheses of `Delivery`, and both are then in the list |
| HappyRun.HelloIsDelivered | frontend/js/app.js:357-442 | the same on a concrete chat with two servers: "hello" at 10 and 11, "hi" at 20 and 21 |
| Loss.FullPollExactly | frontend/js/app.js:357-442 | one poll that reaches every server, as a run of its single steps, delivers exactly the messages of which every server holds a row stamped after the cursor; the cursor then is at or past the first server's row of each |
| Loss.LateDelivery | frontend/js/app.js:312-328 | when the pieces missing arrive late, each stamped by its own server's clock, the next full poll delivers the message if and only if every piece that was there before and every stamp given to a missing one lies after the cursor |
| Loss.BarredForever | frontend/js/app.js:389-404 | once some server holds no piece of a message past the cursor and gave none to the poll in flight, no run shows the message to this client, unless a post puts that piece, then absent, back with a stamp past the cursor, or the client is itself given the sender's copy |
| Loss.OvertakenIsLost | frontend/js/app.js:389-436 | a message incomplete at a full poll that delivers another one, stamped no earlier than one of its stored pieces, is never shown by any later run, reposts of stored pieces included, with the same two exceptions |
| Loss.RemovedIsLost | backend/src/database.cpp:145-167 | once any one piece is purged at its expiry or deleted, no client that does not hold the message and whose poll in flight has no answer with that piece is ever shown it, with the same two exceptions |
| Loss.ReloadForgets | frontend/js/app.js:140-146 | after a page reload no message of which some piece is stamped at or before the cursor is shown again, with the same two exceptions |
| Loss.PolledIsForgotten | frontend/js/app.js:433-436 | every message that a full poll delivered is never shown again once the page is reloaded, since the stored cursor has passed it, whatever is posted again while its first row is stored, with the same two exceptions |
| Revival.NeverShownExactly | frontend/js/app.js:357-442 | for a message whose posts are accepted, and a poll in flight, if any, without an answer from server i that has it: no run that does not renew piece i ever shows the message if and only if the client does not hold it and server i has no row of it past the cursor |
| Revival.RevivedAfterReload | frontend/js/app.js:140-146 | whatever the client holds and polls, one row past the cursor is enough: a reload, deletes and new posts of the other pieces and a full poll show the message |
| ChatRows.OneRow | backend/src/database.cpp:60-80 | in every reachable state a server holds at most one row of a chat's message |
| ChatRows.IdIsRow | frontend/js/app.js:314 | a server holds the id of piece i of a message exactly when it holds a row of that message: piece ids of different messages never collide |
| Skipped.SkippedForGood | frontend/js/app.js:357-442 | for every two messages that can be posted to a chat with two or more servers there is a run, with increasing clocks, no refusal, no loss of a row and every server polled, after which every piece of the first is stored, and no later run shows it though the sender posts all pieces again; only the exceptions of `Loss.BarredForever` stay out |
| Skipped.HelloIsLost | frontend/js/app.js:357-442 | the same run on a concrete chat: "hello" reaches the first of two servers at 10 and the second at 30, "hi" reaches both at 20 and is polled in between; "hello" is never shown |
| Example.PlainIsGood | frontend/js/app.js:34-40 | messages with UUID-like ids, to up to eight servers, whose bodies fit, are sendable and have no empty piece, whatever their text |
| Polling.AddedExactly | frontend/js/app.js:389-431 | a poll adds exactly the messages not held for which every server's result has a fragment, each once, with sender and stamp of the first server's fragment |
| Polling.UnreachableAddsNothing | frontend/js/app.js:365-369 | one unreachable server, an empty result, makes the poll add nothing and leave the cursor |
| Polling.CursorIsMax | frontend/js/app.js:389-436 | the new cursor is the maximum of the old one and the added stamps |
| Polling.KeyOrderMeaning | frontend/js/app.js:375-387 | the keys of byMessage are each fragment's message id, once, in order of arrival |
| Clients.Client.PollChat | frontend/js/app.js:357-442 | the loops over maps change the message list, the cursor and the unread counter to exactly what the set specification says, and keep ids distinct and every counter exact |
| Clients.Client.AddMessages | frontend/js/app.js:389-431 | the second loop pushes exactly the specified messages in order, counts them when the chat is not open, and tracks the greatest stamp |
| Clients.GroupFragments | frontend/js/app.js:371-387 | the nested grouping loops build, per message, sender and stamp of its first fragment and per server position the payload of its last |
| Clients.SizeCheck | frontend/js/app.js:396 | the test on the number of payloads lets through exactly the messages every server has |
| Clients.Reassemble | frontend/js/app.js:398-404 | the reassembly loop returns the payloads in server order, or nothing when a position is missing |
| Clients.NewMessage | frontend/js/app.js:394-422 | one turn of the second loop adds the assembled message exactly when it is new and complete |
| Clients.Client.SendMessage | frontend/js/app.js:291-346 | posts one chunk per resolved server, with distinct ids and payloads that join to the encrypted text, pushes the local copy, and reports all, some or no posts failed exactly when they did; the four early exits change nothing |
| Clients.PostsCarry | frontend/js/app.js:306-324 | the fragments posted bear one message, chat and sender, an id each, and payloads that join to the encrypted text in server order |
| Clients.Client.SetActiveChat | frontend/js/app.js:187-195 | opening a chat creates its list, clears its counter and no other, and keeps the accounts |
| Clients.Client.RemoveChat | frontend/js/app.js:177-183 | removes the chat and its list, closes it if open, and keeps the accounts |
| Clients.Client.CreateChat | frontend/js/app.js:148-175 | appends a chat with cursor 0 and an empty list, or changes nothing without name or servers |
| Clients.Client.AddServer | frontend/js/app.js:100-109 | appends the server with one trailing slash cut, or changes nothing without url or token |
| Clients.Client.ExportChat | frontend/js/app.js:205-219 | the loop exports every server of the chat in order, or fails when one is gone |
| Clients.Client.ImportServers | frontend/js/app.js:232-239 | the loop finds or adds each invited server in order; servers added before an error stay |
| Clients.Client.ActiveIsRead | frontend/js/app.js:187-195 | in every reachable state the open chat has nothing unread |
| Clients.CountedAfter | frontend/js/app.js:177-195 | openings, removals and polls each keep every unread counter equal to the messages that polls added since the chat was last opened, while it was not open |
| Clients.PushKeepsDistinct | frontend/js/app.js:390-395 | pushing new, distinct messages keeps the ids of every list distinct |
| Accounts.BacklogStep | frontend/js/app.js:424-441 | how one call changes the number of messages added since a chat was last opened, while it was not open |
| Accounts.ActiveHasNoBacklog | frontend/js/app.js:187-195 | after any history the open chat's number is 0 |
| Sharing.ExportImportAgree | frontend/js/app.js:205-242 | for non-empty urls and tokens the import completes, keeps the servers the importer had, and addresses the same servers in the same order if and only if no exported url that the importer does not know ends in two slashes |
| Sharing.ImportResolves | frontend/js/network.js:22 | a completed import addresses the invited servers, position by position, by the url every request starts with, if and only if no url unknown to the importer ends in two slashes |
| Sharing.ImportExtends | frontend/js/app.js:232-239 | an import, completed or not, only appends servers, keeps ids unique and yields one id per invited server |
| Sharing.ExportIsResolved | frontend/js/app.js:208-212 | the export carries exactly the resolved endpoints in their order |
| Sharing.SecondImportExactly | frontend/js/app.js:232-239 | a second import of the same invite completes, and adds no server if and only if no invited url unknown before the first ends in a slash |
| Sharing.TrailingSlashesDisagree | frontend/js/app.js:100-109 | "http://a///" is addressed as "http://a/" by the client that added it and as "http://a" after export and import, and every further import adds a server |
| Payload.EndToEnd | frontend/js/crypto.js:37-99 | splitting the encrypted text over any n servers, joining the chunks and decrypting shows the text as the UTF-8 coders carry it |
| Payload.DecryptEncrypt | frontend/js/crypto.js:37-59 | IV framing, btoa and atob and the cipher undo each other |
| Payload.AtobEncode | frontend/js/crypto.js:103-115 | atob accepts every encoder output and returns its bytes |
| Payload.JoinSplit | frontend/js/crypto.js:81-99 | joining the chunks of a text gives the text, for every n |
| Payload.ChunkLengths | frontend/js/crypto.js:81-89 | there are n chunks, none longer than ceil(L/n) or than the one before it, and chunk i is empty exactly when i * ceil(L/n) >= L |
| Payload.LengthsSum | frontend/js/crypto.js:81-89 | the chunk lengths sum to L |
| Payload.SplitLoop | frontend/js/crypto.js:81-89 | the slicing loop computes the specified chunks |
| Payload.FilledExactly | frontend/js/crypto.js:81-89 | no chunk is empty if and only if (n - 1) * ceil(L/n) < L |
| Payload.LongTextFills | frontend/js/crypto.js:81-89 | a text longer than (n - 1)^2 leaves no chunk empty |
| Payload.EightServersFilled | backend/src/handlers.cpp:139 | with up to eight servers no chunk of any message is empty, so none is refused as missing its payload |
| Payload.NineServersShortText | backend/src/handlers.cpp:139 | with nine servers a text of at most two bytes leaves the last chunk empty |
| Handlers.PostHandler | backend/src/handlers.cpp:116-158 | the refusals in their order, each leaving the table; otherwise duplicate exactly when the id is present, created otherwise, with the new table |
| Handlers.GetHandler | backend/src/handlers.cpp:160-185 | refused exactly without a chat id; an unreadable since counts as 0; otherwise each of the chat's rows stamped after it as often as it is stored, by stamp |
| Handlers.PostArrives | backend/src/handlers.cpp:116-158 | a sendable fragment's body adds it as it is, stamped, unless too large, incomplete or present |
| Handlers.FetchReturns | backend/src/handlers.cpp:160-185 | the client's query returns the chat's rows stamped strictly after its cursor, whatever bytes the chat id holds |
| Handlers.RunAccounts | backend/src/database.cpp:60-178 | over every run of posts, deletes and purges ids are unique and the row count is inserted minus deleted minus purged |
| Handlers.RowsUnaltered | backend/src/database.cpp:60-167 | no operation alters a row that is there before and after it |
| Handlers.FilledExactly | backend/src/handlers.cpp:135-139 | a post keeps all stored strings non-empty if and only if it adds no row one of whose strings starts with NUL |
| Handlers.NulIsStoredEmpty | backend/src/handlers.cpp:135-146 | a concrete body, its payload one NUL byte, is accepted and stores a row with an empty payload |
| Handlers.RunFilled | backend/src/handlers.cpp:135-146 | over every run whose bodies bring no such string, all five strings of every row are non-empty |
| Requests.PostRequestArrives | frontend/js/network.js:73-75 | the POST of a fragment, however recv divides its bytes, is answered, and leaves the table, exactly so: denied without a token of the server, refused when too large or incomplete, duplicate when the id is present, else created with the fragment as it is, stamped |
| Requests.FetchRequestServed | frontend/js/network.js:81-84 | the GET of a chat's fragments, however divided, is answered with exactly the chat's rows stamped after the cursor, or denied, and leaves the table |
| Requests.DeleteRequestServed | frontend/js/network.js:98-101 | the DELETE of any id, sent with its dot segments resolved and however divided, is answered and leaves the table exactly so: 404 for "..", 405 for "." and the empty id, else as the items of the id between slashes determine: denied, 400, 404, 405 or the row of its only item |
| Requests.DeleteTargetIs | frontend/js/network.js:98-101 | the path the DELETE is sent with, by the path rules of the WHATWG URL standard: "/api/" for "..", "/api/fragments/" for ".", else the encoded id behind it |
| Requests.DeleteReachesExactly | frontend/js/network.js:98-101 | it removes the row of a stored id from every table if and only if the id is not empty, holds no slash and is neither "." nor ".." |
| Requests.EndingSlashDeletesAnother | frontend/js/network.js:98-101 | the DELETE of x with a slash behind it removes the row of x |
| Requests.BearerIsToken | backend/src/auth.hpp:15-23 | the header the client sends is accepted exactly when its token is one of the server's |
| Requests.AnswersOnce | backend/src/server.cpp:112-154 | a request has one answer |
| Requests.HandleConnection | backend/src/server.cpp:112-154 | limiter, reader, parser, routes and handlers together: 429 and an unchanged table exactly when the address's own readings are over the limit, else the answer and table that request determines |
| Requests.CallHandler | backend/src/handlers.cpp:99-224 | the five handlers compute the specified reply and table |
| Connected.PostStepServed | frontend/js/network.js:73-75 | a server that receives a piece's POST, in whatever chunks, is left with the table the protocol's `Post` step leaves |
| Connected.FetchStepServed | frontend/js/network.js:81-84 | the rows a poll's GET is answered are those the `Fetch` step adds to the poll |
| Connected.DeleteStepServed | frontend/js/network.js:98-101 | for an id that is not empty, holds no slash and is neither "." nor "..", the client's DELETE leaves the table the `DeleteRow` step leaves |
| Store.Database.InsertFragment | backend/src/database.cpp:60-80 | insert-or-ignore on the id: reports an insert exactly when the id was absent |
| Store.Database.GetFragments | backend/src/database.cpp:82-112 | a timestamp-sorted permutation of exactly the chat's rows stamped strictly after since |
| Store.Database.GetMessageFragments | backend/src/database.cpp:114-143 | a timestamp-sorted permutation of exactly the message's rows |
| Store.Database.DeleteFragment | backend/src/database.cpp:145-154 | removes the row with the id, one or none, and reports which |
| Store.Database.PurgeExpired | backend/src/database.cpp:156-167 | removes exactly the rows with ttl > 0 and timestamp + ttl <= now, and reports how many |
| Store.Database.FragmentCount | backend/src/database.cpp:169-178 | the number of rows |
| Store.SelectMeaning | backend/src/database.cpp:82-143 | a query's answer is sorted by timestamp, a permutation of the matching rows |
| Store.DeleteRemovesOne | backend/src/database.cpp:145-154 | with unique ids a delete by id matches one row or none |
| Store.FilterSplits | backend/src/database.cpp:156-167 | kept and removed rows together are all rows, with their multiplicity |
| Wire.PostBodyExact | frontend/js/app.js:313-322 | a posted body comes out of the handler's reader unchanged if and only if its strings are printable, no value is mistaken for a key, and the ttl is reached |
| Wire.StringsExact | backend/src/handlers.cpp:13-43 | all five strings are read back if and only if they are printable and each key's search reaches its own value |
| Wire.PostedTtlExact | backend/src/handlers.cpp:45-57 | the ttl is read back if and only if it is 0 or no value before the payload is mistaken for its key |
| Wire.FragmentJsonReadBack | backend/src/handlers.cpp:64-76 | fragment_to_json read by the same reader gives all five strings and the ttl, except that a payload mistaken for the ttl key makes it return the timestamp |
| Wire.PayloadIsTtl | backend/src/handlers.cpp:64-76 | of a concrete fragment with the payload "ttl" the timestamp is read as the ttl |
| Wire.UnshadowedReached | backend/src/handlers.cpp:13-57 | no search is misled when no value equals, or ends in a quote followed by, a key searched behind it |
| Wire.FragmentsArray | backend/src/handlers.cpp:78-86 | the loop prints the fragments between brackets, separated by commas |
| Json.StringFound | backend/src/handlers.cpp:13-43 | whatever the values are, extract_string on a printed object reads the value of the member whose key is reached first, or of the member behind a value mistaken for the key |
| Json.MemberFound | backend/src/handlers.cpp:13-22 | where the first-occurrence search over printed members stops |
| Json.IntMemberFound | backend/src/handlers.cpp:45-54 | where the search for a number behind string members stops |
| Json.IntUnshadowed | backend/src/handlers.cpp:45-57 | the number is read when no value is mistaken for its key |
| Json.IntShadowed | backend/src/handlers.cpp:45-57 | the default is returned when a value other than the last is |
| Json.IntAfterLast | backend/src/handlers.cpp:45-57 | the number printed next, whatever its key, is read when the last one is |
| Json.SearchValue | backend/src/utils.hpp:137-158 | inside an escaped value the search stops exactly when the value ends in a quote followed by the key |
| Json.RereadExact | backend/src/handlers.cpp:23-42 | exactly the values without control characters other than newline, return and tab survive printing and reading |
| Json.ScanEscaped | backend/src/handlers.cpp:23-42 | reading an escaped value up to its closing quote gives the value with the unread escapes in place, whatever follows |
| Json.EndsQuotedMeaning | backend/src/handlers.cpp:15-16 | the recursive test is: the value ends in a quote followed by the key |
| Json.JsonEscape | backend/src/utils.hpp:137-158 | the loop computes the escaped text |
| Json.ExtractString | backend/src/handlers.cpp:13-43 | the index-driven reader computes the string the search reaches, or the empty one |
| Json.ExtractInt | backend/src/handlers.cpp:45-57 | the index-driven reader computes the number the search reaches, or the default |
| Base64.DecodeEncode | backend/src/utils.hpp:17-68 | decoding an encoded byte string gives it back |
| Base64.EncodeDecode | backend/src/utils.hpp:17-68 | encoding a decoded canonical text gives it back |
| Base64.CanonicalExactly | backend/src/utils.hpp:17-30 | the canonical texts of RFC 4648 sections 3.5 and 4 are exactly the encoder's outputs |
| Base64.NarrowingIsHarmless | backend/src/utils.hpp:57-66 | however the never-masked accumulator is kept, unbounded or modulo any multiple of 2^12, signed or not, the output is the decoding of the longest alphabet-only prefix, for inputs of any length |
| Base64.AccumulateIsCarry | backend/src/utils.hpp:57-66 | the accumulator's loop writes the same bytes as one that keeps only the bits still to be written |
| Base64.EncodedLength | backend/src/utils.hpp:17-30 | the encoded length is 4 * ceil(n/3) |
| Base64.DecodedLength | backend/src/utils.hpp:57-66 | k alphabet characters decode to floor(3k/4) bytes |
| Base64.EncodeLoop | backend/src/utils.hpp:17-30 | the encoder's loop computes the specified text |
| Base64.DecodeLoop | backend/src/utils.hpp:36-68 | the decoder's loop, with its accumulator in any such word, computes the specified bytes |
| Query.QueryRoundTrip | frontend/js/network.js:81-84 | parse_query of the text getFragments sends, apostrophes escaped by `fetch`, recovers exactly chat id and since, for every byte string, and stoll reads the cursor back |
| Query.DecodeEncoded | backend/src/utils.hpp:71-87 | url_decode undoes encodeURIComponent on every byte string |
| Query.DecodeSent | frontend/js/network.js:82 | url_decode undoes encodeURIComponent and the escaping that `fetch` adds in a query, on every byte string |
| Query.EncodedDots | frontend/js/network.js:100 | of what encodeURIComponent prints only "." and ".." are dot segments of a path, escaped dots included |
| Query.QuerySplits | backend/src/server.cpp:293 | the query splits into its two items whatever the chat id holds |
| Query.UrlDecodeLoop | backend/src/utils.hpp:71-87 | the loop computes the decoded text, escapes that are no hexadecimal number included |
| Query.ParseQueryLoop | backend/src/server.cpp:290-303 | the loop computes the map, later items over earlier ones |
| Http.ChunkingIndependent | backend/src/server.cpp:177-201 | every division of a whole request of at most 2 MiB into non-empty chunks of up to 8192 bytes is read to the same state, all of its bytes |
| Http.PrintedParses | backend/src/server.cpp:177-249 | any such division of a printed request whose request line and headers hold no line break parses to its method, decoded target, header map and body; a lone carriage return is no line break |
| Http.FetchRequestArrives | frontend/js/network.js:81-84 | the request getFragments sends, its query as `fetch` writes it and however recv divides it, is parsed to exactly its path, chat id and cursor, for every chat id byte string |
| Http.PrintedIsFramed | backend/src/server.cpp:182-198 | in a printed request the blank line and the announced length are found where they were printed |
| Http.LengthFound | backend/src/server.cpp:188-197 | the case-insensitive search finds exactly the first content-length header, and nothing when there is none |
| Http.DistinctHeaders | backend/src/server.cpp:229-242 | with names distinct in lower case the header map holds exactly the printed pairs |
| Http.PrefixIncomplete | backend/src/server.cpp:200 | the reader never stops short of the whole request |
| Http.ReadLoop | backend/src/server.cpp:177-201 | the receive loop computes the reader state |
| Http.HeaderLoop | backend/src/server.cpp:229-242 | the loop over positions computes the header map line by line |
| Http.ReadAndParse | backend/src/server.cpp:158-250 | reading and parsing together compute the request, empty when there is no request line |
| Routing.Dispatch | backend/src/server.cpp:124-149 | OPTIONS is answered first; then the first route that takes the request handles it, 405 exactly when a pattern matches and no route takes it, 404 otherwise |
| Routing.DecidesOneOutcome | backend/src/server.cpp:131-149 | these conditions admit one outcome |
| Routing.OrderIrrelevant | backend/src/server.cpp:131-149 | when no request is taken by two routes, every order of the routes decides alike |
| Routing.RegisteredUnambiguous | backend/src/handlers.cpp:228-234 | no request is taken by two of the registered routes |
| Routing.RegisteredOrderIrrelevant | backend/src/handlers.cpp:228-234 | the registered table decides every request the same in every order |
| Routing.FilledPathMatches | backend/src/server.cpp:274-288 | a pattern filled with non-empty slash-free values is a path it matches, and exactly those values come back |
| Routing.DeleteDecided | backend/src/handlers.cpp:228-234 | how the registered table decides a DELETE below /api/fragments/, for every rest of the path |
| Routing.MatchPattern | backend/src/server.cpp:274-288 | the loop computes the match and its parameters |
| RateLimiting.RateLimiter.Allow | backend/src/rate_limiter.hpp:26-44 | the table update answers as the address's own readings alone determine; 0 disables the limiter |
| RateLimiting.PerAddress | backend/src/rate_limiter.hpp:32 | requests from other addresses never change an entry |
| RateLimiting.FirstMaxOfWindow | backend/src/rate_limiter.hpp:36-43 | each window lets exactly its first max requests through |
| RateLimiting.SlidingBound | backend/src/rate_limiter.hpp:26-44 | when the readings reach the lock in clock order, any 60 seconds let at most 2 * max requests of one address through, and 2 * max - 1 when its first reading is 60 seconds past the clock's epoch |
| RateLimiting.SkewedBound | backend/src/rate_limiter.hpp:29-43 | readings up to 60 seconds late: the same bounds when none is 2 ns late, and max - 1 more otherwise |
| RateLimiting.LateReadings | backend/src/rate_limiter.hpp:29-30 | with readings 2 ns late 3 * max - 2 requests pass in 60 seconds past the first minute, so that bound is reached |
| RateLimiting.LateExactly | backend/src/rate_limiter.hpp:29-43 | the bound 2 * max - 1 holds of all readings at most d late, d up to 60 seconds, if and only if d is below 2 ns or max is 1 |
| RateLimiting.PromiseFails | backend/src/rate_limiter.hpp:10-11 | past the first minute the bound 2 * max - 1 is reached, within one nanosecond |
| RateLimiting.FirstMinuteFails | backend/src/rate_limiter.hpp:47-50 | in the first minute of the clock the bound 2 * max is reached, within one nanosecond |
| RateLimiting.PromiseExactly | backend/src/rate_limiter.hpp:10-11 | for readings in clock order, at most max in any 60 seconds holds of all runs whose first reading is at or after a given one if and only if max is 1 and that one is 60 seconds past the clock's epoch |
| Text.SplitJoin | backend/src/utils.hpp:90-96 | splitting what was joined gives the items back, when none holds the delimiter and the last is not empty |
| Text.SplitLoop | backend/src/utils.hpp:90-96 | the getline loop computes the items, without a last empty one |
| Text.TrimOfSpaced | backend/src/utils.hpp:98-103 | a trimmed text behind one space is trimmed back to itself |
| Text.CTextKeeps | backend/src/database.cpp:68-72 | a text bound as a C string stays as it is if it holds no NUL, and is empty exactly when it is empty or starts with NUL |
| Text.CutMeaning | backend/src/handlers.cpp:16 | find returns the first occurrence and nothing before it |
| Numerals.IntegerRead | backend/src/handlers.cpp:55 | stoll reads a printed number back if and only if it fits 64 bits signed, whatever text that starts with no digit follows |
| Numerals.NumeralRead | backend/src/server.cpp:195 | stoull reads a printed length back if and only if it is below 2^64, whatever text that starts with no digit follows |
| Numerals.ValueOfDecimal | backend/src/handlers.cpp:72-73 | the value of a printed natural number is that number |

## Left out

- Sockets, threads, timeouts, signals and the response printer: reading starts at a sequence of received chunks, and handlers answer values. The health answer is its row count.
- UUID generation, configuration, the user interface, nicknames, search, server health and localStorage: no state of the protocol depends on them.
- AES-GCM, SHA-256 and secrecy: only that opening undoes sealing and the tag's length are used.
- `JSON.parse` in the browser: results are fragments, not texts; a failed or refused request is an empty result.
- Database errors and `sqlite3_changes` read on a shared connection: calls are atomic and succeed.
- Store.Database.PurgeExpired: `timestamp + ttl` is unbounded, so SQLite's change to floating point on overflow is not modelled.
- Store.SelectMeaning: rows with equal timestamps keep insertion order in the model, which SQLite does not promise; no lemma about the protocol uses it.
- RateLimiting.RateLimiter.Allow: the count is unbounded; an `int` would wrap after 2^31 - 1 requests of one address in one window.
- Clients.Client.PollChat: the keys of `byMessage` are taken in insertion order, which JavaScript keeps for ids that are not integers, and ids that name properties of `Object.prototype` are not modelled.
- Clients.Client.SendMessage: the ttl is an integer, so `Math.floor` and the test for a number are not modelled.
- Clients.Client.ImportServers: ends where `importChat` calls `createChat`, which `Clients.Client.CreateChat` models.
- Payload.ChunkLengths: `Math.ceil` of a floating-point quotient is taken as the exact ceiling.
- Http.ChunkingIndependent: requires a whole request within the limit; what the reader does with longer or cut streams is computed by `Http.ReadLoop` but no law is stated.
- Protocol.Integrity: each chat's server list and key are fixed for a run; removing a server that a chat uses is outside it.
- Delivery.NothingSkipped: requires one common order of the chat's messages and forward clocks; that senders and networks bring this about is not promised by the code. `Timely.TimelyIsOrderly` states it post by post.
- Requests.DeleteTargetIs: of the URL standard only percent-encoding and dot segments below the server's url are modelled, and that url is taken to have no path of its own.
- Requests.PostRequestArrives: the client's token has no white space at its ends, which reading the header would trim.
- Connected.FetchStepServed: that the browser's `JSON.parse` of the answer gives the rows back is not modelled.
