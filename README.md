# Secure chat relay and item server, modelled in Dafny

This project models two small TCP servers that take JSON requests.

The **relay server** (`secure_server.py`) is the larger one:

- Users register a password. Login applies a three-strike lockout: the third wrong password locks the account for ten minutes.
- Users send encrypted text messages and files to each other's mailboxes.
- It answers these read requests:
  - the inbox, which marks every record read;
  - a per-peer conversation summary;
  - the full history with one peer, which marks that peer's records read;
  - a case-insensitive search.
- Users can delete a conversation on both sides.
- It keeps a typing indicator that lapses after eight seconds.

The **item server** (`server.py`) keeps one list of items per user in a key-value store (`storage.py`). Its accounts are kept as SHA-256 digests by an account manager (`auth.py`).

Layout, one module per file:

| file | module | models |
|---|---|---|
| `options.dfy` | `Options` | `Option`, `dict.get(k, default)` |
| `crypto.dfy` | `Crypto` | Fernet tokens and SHA-256 digests, symbolically |
| `text.dfy` | `Text` | ASCII `str.lower`, substring test |
| `seqs.dfy` | `Seqs` | no duplicates, subsequence |
| `stable_sort.dfy` | `StableSort` | Python's stable `list.sort(key=...)` |
| `failures.dfy` | `Failures` | the relay server's error codes |
| `accounts.dfy` | `Accounts` | `password_valid`, `can_attempt_login`, `record_failed_attempt`, the login check |
| `mailbox.dfy` | `Mailbox` | message records, inbox entries, conversation threads, the delete filter |
| `summaries.dfy` | `Summaries` | the conversations summary |
| `search.dfy` | `MessageSearch` | the search action |
| `presence.dfy` | `Presence` | the typing table |
| `relay.dfy` | `Relay` | class `Database`, with one method per action of `handle_client`, and the dispatch `Handle` |
| `relay_scenarios.dfy` | `RelayScenarios` | request sequences proved from the `Database` contracts |
| `auth.dfy` | `Auth` | class `AuthManager` |
| `storage.dfy` | `Store` | class `Storage` |
| `item_server.dfy` | `ItemServer` | the dispatch of `server.py`'s `handle` |

The relay layer has two parts.

- **Pure functions.** Each view a request computes is a pure function of the mailbox:
  - `InboxEntryOf` for the inbox;
  - `ConversationSummaries` for the conversations summary;
  - `History` for the conversation detail;
  - `SearchResults` for the search.

  Their properties are proved as lemmas.
- **Class `Relay.Database`.** It holds the fields of the `db` dict: `users`, `messages` and `typing`. It also holds `mailboxOrder`, the insertion order of the keys of `db["messages"]`. The search depends on that order, because it walks the mailboxes in dict order and the sort is stable.
  - Each action is a method.
  - Every loop of the source is a `while` loop proved equal to the pure function.
  - State-changing methods give the whole new state and preserve `Valid()`.

Modelling decisions:

- **Missing fields.** A payload field that is missing is the empty string wherever the two take the same branch:
  - a falsy test (`not x`) rejects both;
  - `Valid()` keeps `""` out of the user and mailbox tables, so `db["users"].get(None)` and `.get("")` agree;
  - the relay login compares the field with a stored password, which `Valid()` keeps at six characters or more, so neither `None` nor `""` matches.

  The item server's login is the exception. `verify` hashes the password it is given without testing it (`auth.py:43`, `auth.py:24`). For a stored user, a missing password raises and an empty one is hashed. So `ItemServer.Request.Login` carries the password as an `Option`, and the raise is the reply `Closed`: `handle` (`server.py:19-83`) does not catch it, so `with conn` closes the connection without replying.
- **Timestamps.** Times are whole seconds. The current time is a `now` parameter of each request. The source stores ISO timestamps truncated to the second and compares them with `datetime.now()`. The guards `now >= locked_until` and `now - ts < 8` give the same answers on the floor of the current time. This holds because both stored values are whole seconds.
- **Fernet.** A ciphertext is `Token(key, plaintext)` or `Garbled(raw)`. Decryption under the server key succeeds exactly on the server's own tokens. `Garbled` stands for the corrupted records the source catches with `except`.
- **SHA-256.** A digest is its preimage. The model therefore has no collisions, which is what `verify` relies on.

Where the source and its design description disagree, the model follows the source:

- **Register check order.** Checks run in the order missing fields, then password too short, then user exists (`secure_server.py:112-120`).
- **Plaintext passwords.** The relay server stores and compares the password itself, not a digest (`secure_server.py:121`, `140`).
- **No peer check on delete.** `delete_conversation` does not check that the peer exists. It writes both mailboxes back, creating them when missing (`secure_server.py:364-370`). With `user == peer`, the second filter reads the mailbox the first one already rewrote.
- **Username taken on trust.** `handle_client` never checks that the request's username logged in:
  - `inbox` and `conversations` do not even require a non-empty name;
  - `send` and `send_file` refuse an empty sender only as one of their `missing_fields` (`secure_server.py:161-163`, `186-188`);
  - `conversation_detail`, `delete_conversation`, `search`, `typing` and `typing_status` answer `not_logged_in`, but only for an empty name.

  The item server is the same: `login` records no session, and the gate at `server.py:46` only tests that a username is present.

## Model

| member | source | states |
|---|---|---|
| `Options.GetOr` | storage.py:28-31 | `d.get(k, default)`: the stored value when the key is present, the default otherwise |
| `Crypto.Encrypt` | secure_server.py:167 | a text is encrypted into a token under the server key |
| `Crypto.Decrypt` | secure_server.py:218-221 | decryption succeeds exactly on a token made under the same key, and returns the plaintext that token was made from |
| `Crypto.DecryptEncrypt` | secure_server.py:167-221 | what is encrypted at send decrypts back to the same text |
| `Crypto.DecryptForeignKey` | secure_server.py:218-221 | a token made under another key does not decrypt; the source shows `[decrypt error]` instead |
| `Text.Lower` | secure_server.py:382 | lower-casing keeps the length and lower-cases every character |
| `Text.LowerIdempotent` | secure_server.py:382-399 | lower-casing twice is lower-casing once, so the lower-cased query and text are compared consistently |
| `Text.LowerEmpty` | secure_server.py:382-386 | the lower-cased query is empty exactly when the query is |
| `Text.Contains` | secure_server.py:399 | Python's `needle in hay` on strings: the needle occurs at some position of the hay; `MessageSearch.SentTextFound` and `MessageSearch.InboundHitsMembers` use it as the match test |
| `StableSort.SortCorrect` | secure_server.py:338-341 | the sort returns a sorted permutation of its input, and keeps records with equal keys in their input order |
| `StableSort.SortMembers` | secure_server.py:429-432 | sorting keeps the length and the set of elements |
| `StableSort.SortTwo` | secure_server.py:338-341 | two records with different timestamps come out oldest first, in either input order |
| `StableSort.Sort` | secure_server.py:338-341 | `list.sort(key=...)` as an insertion sort: each element is inserted before the first one whose key is not smaller, so records with equal keys keep their input order; `StableSort.SortCorrect` proves it sorted, a permutation and stable |
| `Accounts.CanAttemptLogin` | secure_server.py:68-77 | the attempt may proceed exactly when no lock is active; an active lock leaves the record untouched; an expired lock is cleared together with the strikes |
| `Accounts.RecordFailedAttempt` | secure_server.py:80-88 | a wrong password adds one strike and reports it; the strike that reaches 3 locks the account until now + 600 s, resets the strikes to 0 and reports (True, 3); strikes stay below 3 |
| `Accounts.AttemptLogin` | secure_server.py:136-153 | login succeeds exactly when no lock is active and the password matches; an active lock gives `locked_out` with the record unchanged; success clears strikes and lock; a wrong password gives `bad_credentials` with strike 1 or 2, or `locked_after_3` with strike 3 |
| `Accounts.ThreeStrikesThenLockout` | secure_server.py:68-154 | from a fresh record: two wrong passwords report strikes 1 and 2, the third locks for 10 minutes, the right password inside the window is refused, and after the window it succeeds and restores a fresh record |
| `Accounts.PasswordValid` | secure_server.py:64-65 | `password_valid`: at least six characters; `Relay.Database.Register` refuses a shorter password with pw_too_short, and the database invariant keeps every stored password valid |
| `Failures.CodeIdentifiesFailure` | secure_server.py:113-466 | two failures send the same error string exactly when they are the same failure, or both bad_credentials or both locked_after_3, which differ only in the separate `strike` field |
| `Mailbox.WithoutKeepsTheRest` | secure_server.py:365 | the delete filter keeps the other records in order (a subsequence), no record of the removed sender survives, and exactly that sender's records are lost |
| `Mailbox.WithoutMembers` | secure_server.py:365 | a record survives the filter exactly when it was there and is not from the removed sender |
| `Mailbox.WithoutIdempotent` | secure_server.py:364-370 | filtering a second time changes nothing |
| `Mailbox.ThreadOfWithout` | secure_server.py:294-370 | after the filter the removed sender's thread is empty |
| `Mailbox.ThreadIgnoresWithout` | secure_server.py:364-370 | the filter leaves every other sender's thread as it was |
| `Mailbox.ThreadIgnoresReadFlags` | secure_server.py:343-346 | marking records read does not change any thread |
| `Mailbox.ThreadShape` | secure_server.py:294-336 | a thread has one entry per record of its sender, each addressed from that sender to the mailbox owner |
| `Mailbox.ThreadAppend` | secure_server.py:169-175 | a newly delivered record extends its sender's thread by exactly that entry |
| `Mailbox.HistoryCorrect` | secure_server.py:292-341 | the history is sorted by timestamp and is a permutation of inbound-from-peer plus outbound-to-peer; on equal timestamps inbound records come first, each side in storage order; it holds only the pair's records, and as many as the two mailboxes have |
| `Mailbox.HistoryEmptyAfterDelete` | secure_server.py:353-370 | after both filters of the delete action the pair's history is empty, seen from either side |
| `Mailbox.UnreadAtMostTotal` | secure_server.py:250-252 | a sender never has more unread records than records |
| `Mailbox.NothingUnreadAfterInbox` | secure_server.py:229-230 | after the inbox action nothing in the mailbox is unread |
| `Mailbox.UnreadAfterDetail` | secure_server.py:343-346 | after the detail action nothing from the peer is unread, and other senders' unread counts are unchanged |
| `Mailbox.DisplayText` | secure_server.py:211-221 | a file record shows `[file] <name> (stored securely)`; a text record shows its decryption, or `[decrypt error]` when the token does not decrypt under the server key |
| `Mailbox.InboxEntryOf` | secure_server.py:210-228 | one inbox entry: the record's sender, its displayed text, its timestamp, its read flag as stored and its kind |
| `Mailbox.Without` | secure_server.py:365 | the delete filter: the records not from one sender, in storage order; `Mailbox.WithoutKeepsTheRest` and `Mailbox.WithoutMembers` state what it keeps |
| `Mailbox.Thread` | secure_server.py:294-336 | the entries of one sender's records in one mailbox, in storage order, each addressed from that sender to the mailbox's owner; `Mailbox.ThreadShape` proves that shape |
| `Mailbox.History` | secure_server.py:292-341 | the inbound thread followed by the outbound one, stably sorted by timestamp; `Mailbox.HistoryCorrect` proves its properties |
| `Mailbox.MarkedAllRead` | secure_server.py:229-230 | every record of the mailbox with its read flag set, in place and in order; `Mailbox.NothingUnreadAfterInbox` proves nothing is left unread |
| `Mailbox.MarkedReadFrom` | secure_server.py:344-346 | the records from the peer with their read flag set, the rest as they were; `Mailbox.UnreadAfterDetail` and `Mailbox.ThreadIgnoresReadFlags` state its effect |
| `Summaries.TalliedKeys` | secure_server.py:238-249 | the keys of `conv` are exactly the mailbox's senders, each recorded once |
| `Summaries.TalliedCounts` | secure_server.py:250-252 | each sender's total and unread count that sender's records and unread records |
| `Summaries.NoRecordsNoCount` | secure_server.py:250-252 | a name that sent nothing has zero records and zero unread |
| `Summaries.TalliedLatest` | secure_server.py:253-263 | each sender's `last_ts` is the largest timestamp among its records, taken from the first such record on ties, and `last_preview` is that record's preview |
| `Summaries.TalliedFirstSeen` | secure_server.py:243-249 | senders are listed in the order of their first record |
| `Summaries.ListingAt` | secure_server.py:264-272 | the listing has one summary per key, in key order |
| `Summaries.TalliedSum` | secure_server.py:250 | the totals add up to the number of records |
| `Summaries.SummariesCorrect` | secure_server.py:236-274 | the summary lists every sender exactly once, in first-seen order, with its record and unread counts (unread at most total), its latest timestamp and preview, and totals summing to the mailbox length |
| `Summaries.SummariesEmpty` | secure_server.py:236-274 | the summary is empty exactly when the mailbox is |
| `Summaries.Preview` | secure_server.py:254-261 | a file record previews as `[file] <name>`; a text record as its decryption, or `[decrypt error]` |
| `Summaries.Bump` | secure_server.py:250-263 | counting one record: the total goes up by one, the unread count by one when the record is unread, and the latest timestamp and preview are replaced on a sender's first record or a strictly later one |
| `Summaries.Tallied` | secure_server.py:238-263 | the `conv` dict after the loop, with its keys in insertion order; `Summaries.TalliedKeys`, `Summaries.TalliedCounts`, `Summaries.TalliedLatest` and `Summaries.TalliedFirstSeen` prove what it holds |
| `Summaries.ConversationSummaries` | secure_server.py:264-272 | one summary per key of `conv`, in key order; `Summaries.SummariesCorrect` proves its properties |
| `MessageSearch.InboundHitsMembers` | secure_server.py:390-405 | an inbound result is exactly a received text record that decrypts and whose lower-cased text contains the query |
| `MessageSearch.SentHitsMembers` | secure_server.py:411-427 | an outbound result from one mailbox is exactly a text record there sent by the user that decrypts and matches |
| `MessageSearch.OutboundHitsMembers` | secure_server.py:407-427 | the outbound results are exactly the matching records the user sent in every mailbox but their own |
| `MessageSearch.SearchResultsCorrect` | secure_server.py:388-434 | the results are newest first; they are a permutation of inbound plus outbound hits; on equal timestamps inbound hits come first, each group in storage order; a hit is a result exactly when it is a matching inbound or outbound record |
| `MessageSearch.FileRecordsIgnored` | secure_server.py:392-394 | a file record is never a hit, whatever its file name |
| `MessageSearch.SentTextFound` | secure_server.py:411-427 | a text the user sent becomes a hit exactly when its lower-cased text contains the query |
| `MessageSearch.InboundHits` | secure_server.py:390-405 | the matching text records of the user's own mailbox, in storage order, each as a hit from its sender to the user; `MessageSearch.InboundHitsMembers` states which records match |
| `MessageSearch.SentHits` | secure_server.py:411-427 | the matching text records the user sent into one other mailbox, in storage order; `MessageSearch.SentHitsMembers` states which |
| `MessageSearch.OutboundHits` | secure_server.py:407-427 | the sent hits of every mailbox in key order, skipping the user's own; `MessageSearch.OutboundHitsMembers` states which |
| `MessageSearch.SearchResults` | secure_server.py:388-432 | inbound hits followed by outbound hits, stably sorted newest first; `MessageSearch.SearchResultsCorrect` proves its properties |
| `Presence.WithTyping` | secure_server.py:449-453 | the typing action records (flag, now) under `typing[peer][user]` and changes no other entry |
| `Presence.TypingRoundTrip` | secure_server.py:438-479 | what a writer reports, the viewer sees as typing exactly when the flag is set and under 8 seconds have passed since the report (at any time, including one before it); entries of other pairs are unaffected |
| `Presence.TypingIsDirectional` | secure_server.py:449-469 | a report from A to B is not seen by A looking at B |
| `Presence.TypingNeedsFreshReport` | secure_server.py:469-477 | with no stored state the indicator is off; when it is on, the stored flag is set and under 8 seconds old |
| `Presence.TypingNow` | secure_server.py:469-477 | the viewer sees the peer typing when a state is recorded for that pair, its flag is set and it is under 8 seconds old; `Presence.TypingRoundTrip` and `Presence.TypingNeedsFreshReport` state it from the writer's side |
| `Presence.Recorded` | secure_server.py:469 | `db["typing"].get(viewer, {}).get(writer)`: the state stored for the pair, or none; `Presence.WithTyping` states how a report changes it |
| `Relay.PutKeepsKeyOrder` | secure_server.py:366-370 | writing a mailbox keeps `mailboxOrder` the duplicate-free key order of the messages dict, a new key going last |
| `Relay.OrderAfterPut` | secure_server.py:366-370 | the key order of a dict after `d[name] = ...`: unchanged for a present key, the new key last otherwise; `Relay.PutKeepsKeyOrder` proves it stays the duplicate-free key order |
| `Relay.Database.constructor` | secure_server.py:40-43 | a fresh database has no users, mailboxes or typing state |
| `Relay.Database.BoxOf` | secure_server.py:208 | `db["messages"].get(name, [])`: the stored mailbox, or an empty one that is not stored |
| `Relay.Database.PutMailbox` | secure_server.py:366-370 | assigning a mailbox replaces exactly that entry and appends a new key to the key order |
| `Relay.Database.Register` | secure_server.py:109-125 | errors in the order missing_fields, pw_too_short, user_exists, each leaving the database unchanged; success adds exactly one fresh record and creates the mailbox if missing |
| `Relay.Database.Login` | secure_server.py:128-154 | an unknown user gives no_such_user before any lock check; otherwise the stored record becomes the result of the login check; succeeds exactly when no lock is active and the password matches; mailboxes untouched |
| `Relay.Database.Send` | secure_server.py:157-178 | a missing field or an unknown receiver changes nothing; otherwise exactly one unread text record is appended to the end of the receiver's mailbox and nothing else changes |
| `Relay.Database.SendFile` | secure_server.py:181-204 | the same for a file record carrying the encrypted content and the file name |
| `Relay.Database.InboxEntries` | secure_server.py:208-228 | one entry per stored record, in storage order, with the read flag as stored |
| `Relay.Database.MarkAllRead` | secure_server.py:229-230 | every record of the user's stored mailbox is flagged read; a user without a mailbox changes nothing |
| `Relay.Database.Inbox` | secure_server.py:207-233 | the reply holds the entries as they were before the call, and afterwards the whole mailbox is read |
| `Relay.Database.Conversations` | secure_server.py:236-274 | the reply is the conversation summary of the mailbox, and the database is not modified |
| `Relay.Database.ThreadHistory` | secure_server.py:292-341 | the gathered and sorted list is the pair's history |
| `Relay.Database.MarkReadFrom` | secure_server.py:343-346 | only the user's records from the peer are flagged read |
| `Relay.Database.ConversationDetail` | secure_server.py:277-350 | not_logged_in, missing_peer and no_such_user change nothing; otherwise the reply is the history and only the user's records from the peer become read |
| `Relay.Database.DeleteConversation` | secure_server.py:353-374 | not_logged_in and missing_peer change nothing; otherwise the user's mailbox loses the peer's records, and then the peer's mailbox loses the user's records; both are written back and users and typing are untouched |
| `Relay.Database.SearchInbox` | secure_server.py:390-405 | the inbound loop computes the inbound hits |
| `Relay.Database.SearchSent` | secure_server.py:411-427 | the inner outbound loop computes the user's hits in one mailbox |
| `Relay.Database.SearchOutboxes` | secure_server.py:407-427 | the outer loop visits the mailboxes in key order, skipping the user's own |
| `Relay.Database.Search` | secure_server.py:377-435 | not_logged_in, then empty_query for a query that is empty after lower-casing; otherwise the search results; nothing is modified |
| `Relay.Database.SetTyping` | secure_server.py:438-456 | not_logged_in and missing_peer change nothing; otherwise only the typing table changes, by recording the flag |
| `Relay.Database.TypingStatus` | secure_server.py:459-479 | not_logged_in, missing_peer, otherwise whether the peer is typing to the user now; nothing is modified |
| `Relay.Handle` | secure_server.py:104-483 | for each action, the response and the new database as the matching `Database` method gives them: the error checks in the source's order, with every refused request but a login leaving the database unchanged (a refused login stores the strike or lock the login check gives); the records appended or filtered and the key order of `messages` after the write; the read flags set; the typing entry written; an unknown action answers unknown_action; read-only actions leave the database unchanged; users change only by register and login, typing only by typing, mailboxes never by login or typing; every action keeps `Valid()` |
| `RelayScenarios.RegisterThenLogin` | secure_server.py:109-154 | a new user logs in with the registered password; registering the name again is refused |
| `RelayScenarios.ThreeStrikes` | secure_server.py:128-154 | through the database: strikes 1 and 2, then locked_after_3, locked_out inside the window, success after it with a fresh record |
| `RelayScenarios.TwoStrikesThenLogin` | secure_server.py:128-154 | two wrong passwords then the right one report strikes 1, 2 and success, and leave the user table as it was |
| `RelayScenarios.SendThenInboxTwice` | secure_server.py:157-233 | a sent text is the last inbox entry, decrypted and unread; the next inbox call shows the same entries as read |
| `RelayScenarios.SendToEmptyInbox` | secure_server.py:157-233 | a text sent to an empty mailbox is the whole inbox |
| `RelayScenarios.ErikaAndSam` | secure_server.py:109-233 | on a fresh database: both registrations succeed, two wrong logins report strikes 1 and 2, the right one succeeds, the send succeeds, and sam's inbox holds exactly erika's unread "lunch?" |
| `RelayScenarios.SendBothWays` | secure_server.py:157-178 | after one message each way, each direction's thread holds exactly that message |
| `RelayScenarios.Exchange` | secure_server.py:277-350 | both sides see the exchange oldest first, whichever mailbox stores each message |
| `RelayScenarios.DeleteThenNoHistory` | secure_server.py:277-374 | after a delete both sides see an empty history, and messages exchanged with a third user are untouched |
| `RelayScenarios.SentTextIsFound` | secure_server.py:377-435 | a sent text is found by the sender's search for any query its lower-cased form contains |
| `RelayScenarios.TypingIndicator` | secure_server.py:438-479 | the peer sees the indicator for 8 seconds; the reverse direction is unaffected |
| `Auth.PasswordHash` | auth.py:22-24 | equal digests mean equal passwords |
| `Auth.CodeIdentifiesError` | auth.py:26-32 | the two error strings of `register` are different, so the caller can tell the refusals apart |
| `Auth.AuthManager.constructor` | auth.py:7-12 | a new users file is empty |
| `Auth.AuthManager.Register` | auth.py:26-35 | an empty name or password gives missing_username_or_password; an existing name gives user_exists; both leave the table unchanged; success adds exactly one entry holding the digest, never the password |
| `Auth.AuthManager.Verify` | auth.py:37-43 | an unknown name answers false; for a stored name, a missing password raises (`_hash(None)`), and otherwise the answer is true exactly when the stored digest is the password's; the table is not modified |
| `Auth.RegisterThenVerify` | auth.py:22-43 | after registering, the password verifies and only that password does; registering again is refused; verifying without a password raises |
| `Store.Storage.constructor` | storage.py:13-18 | a new store is empty |
| `Store.Storage.Get` | storage.py:28-31 | the stored value, or the default when the key is absent; nothing is modified |
| `Store.Storage.Set` | storage.py:33-37 | exactly that key now holds the value |
| `Store.Storage.Delete` | storage.py:39-44 | exactly that key is removed; deleting an absent key changes nothing |
| `Store.SetGetDelete` | storage.py:28-44 | a set value is read back, a deleted key reads as the default, and other keys keep their values |
| `ItemServer.ItemsKeyInjective` | server.py:52 | two users share an item list exactly when they are the same user |
| `ItemServer.ItemsKey` | server.py:52 | the store key `items:<username>`; `ItemServer.ItemsKeyInjective` proves that different users get different keys |
| `ItemServer.IndexOf` | server.py:68-69 | the position of the first occurrence of the item |
| `ItemServer.RemoveFirst` | server.py:68-69 | removal drops exactly one copy of the item, at its first occurrence, and keeps the rest in order |
| `ItemServer.RemoveAfterAdd` | server.py:49-75 | adding a new item and then removing it restores the list |
| `ItemServer.RemoveKeepsOtherCopies` | server.py:68-69 | when an item is present twice, it is still present after one removal |
| `ItemServer.Handle` | server.py:19-83 | ping answers pong; register answers the account manager's pair, missing_username_or_password before user_exists; login answers whether the password verifies, and a missing password on a stored user closes the connection without a reply; every other action without a username answers auth_required and changes nothing; add appends to the end of `items:<username>` or answers missing_item; list returns the list or []; remove drops the first occurrence or answers not_found; help lists the commands; anything else answers unknown_action; the store changes only on add and remove, the accounts only on register |

## Left out

- Sockets, the accept loop, per-connection threads and `recv` framing: these are I/O and concurrency. Each request is one call of `Relay.Handle` or `ItemServer.Handle`.
- The `invalid_json` reply, and payloads that are not JSON objects (for example a non-string `query`): decoding is I/O. The model starts from a decoded `Request`.
- `threading.Lock` in `auth.py` and `storage.py`, and the per-connection copy of `db` that `handle_client` loads once: concurrency. Each operation is taken as atomic on one shared state.
- JSON files: `load_db`/`save_db`, the `_read`/`_write` of both stores, and the legacy plain-password migration in `load_db`. These are file I/O. Only the empty database that `load_db` builds when no file exists is modelled.
- `load_key`, `log`, and the `logging` calls: file I/O.
- `secure_client_gui.py`, `client.py`, `utils.py` and `help_menu.py` are not part of this model: they are user-interface code.
- `Crypto.Encrypt`: Fernet tokens are randomised and authenticated. The model's token is deterministic and stores the plaintext, so it captures only the encrypt/decrypt round trip and the rejection of foreign or corrupted tokens.
- `Auth.PasswordHash`: SHA-256 is a symbolic digest with no collisions, not the real function.
- `Text.Lower`: it lower-cases ASCII letters only. Non-ASCII case mapping is not modelled.
- `Accounts.AttemptLogin`: the source reads the clock separately in `can_attempt_login` and in `record_failed_attempt`. The model uses one `now` per request, so it leaves out a second boundary falling between the two reads.
- `Accounts.CanAttemptLogin` and `Accounts.RecordFailedAttempt`: the source mutates the user-record dict in place. The model returns the new record, and `Relay.Database.Login` writes it back into `users`. The record is reachable only through `db["users"]`, so no aliasing is lost.
- Records with missing fields: the `msg.get(..., default)` defaults (`"?"`, `"text"`, `"(file)"`) apply only to legacy or hand-edited records. Every record the server writes is complete, and the model's records always are.
- `bool(payload.get("is_typing"))` on non-boolean JSON values: the flag is a `bool` in the model.
- The `try/except` around both sorts: the sorts cannot fail on the model's integer timestamps.
- Values other than item lists in `storage.py`: `ItemServer.Handle` uses a `Storage<seq<string>>`.
- The `"exit"` command named in the help list: the server itself has no exit action. It falls to unknown_action like any other name.
- A missing `item` in a remove request is the empty string, which add never stores, so remove answers `not_found` as the source does for `None`.
