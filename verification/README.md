# Chat server: verified model

A Dafny model of a small chat server: the statements it prints for its database and what they mean, the
buffers and framings it sends, the protocol of a session, its notifications, and its session pool. The files
follow the program.

- `Decimal`, `SqlLexer`, `SqlParser`: reading the statements back. The parser and the token form of a
  statement are inverse to each other, and a text that lexes can be joined and cut at token boundaries.
- `QueryBuilder`, `Splicing`: the statement builders as string-accumulating methods, their texts, the round
  trips, and splicing a value into a text already printed.
- `Relational`: an abstract store of rows with row ids and a last-inserted-row-id cell, columns with declared
  types, an engine that runs a text statement by statement and resolves columns by name, and the direct
  reading by index it is proved equal to.
- `Queries`, `Messages`, `Tables`, `Invitations`, `Relations`, `CheckLists`: the database operations and what
  they return.
- `Deployment`: what every statement keeps of the store, and whose tables it adds to.
- `Polling`, `Delivery`, `Requests`, `Cursors`: runs of repeated polls, the agreement of notification with
  delivery, the answer to a request for new messages, and the session's cursor over a run.
- `Bytes`, `Params`, `Buffers`, `Wire`, `Packets`: encodings, the slot allocator, the growable buffer, the
  framed streams, and the packet whose header is patched in last.
- `ServerRuns`: every statement as inserts of the polling machine, and runs of the whole server.
- `Commands`, `Notifications`, `SessionProtocol`, `SessionPool`, `Handlers`: the request codes, flags and
  mailboxes, the request protocol, the pool, and the handlers that join the parts.

Stateful parts are classes whose methods are tied to functions on their abstract value; the results over all
runs are lemmas about those functions. A byte is a character, as in the source's buffers, and structs are the
concatenation of their fields.

Where the code departs from what it is for, the code is kept and the departure is stated exactly:

- Strings are quoted without escaping, so a statement is read back exactly when no text in it holds a double
  quote. A text is executed statement by statement (sqlite3.h:350-351): a value without a double quote, or
  without a semicolon, leaves a select read-only, and a value with both can carry any further statement.
- Comparison codes 3 and 4 print each other's symbol (hqery.h:150 against 63-70); codes 0 to 2 are right.
- A poll sets its cursor to the last row id inserted anywhere on the connection (query.cpp:193). `CursorSound`
  is the condition under which polling goes on exactly once, and it is necessary.
- `get_new_message` moves that cursor between tables (query.cpp:202-203), so as written a new message reaches
  exactly the members in whose list its table comes first. The function takes the cursor by value, so the
  session writes its own back unchanged (session.cpp:504-520). `Cursors` states when two requests then deliver
  nothing twice, and proves exactly-once delivery for the entry cursor and a session cursor that moves.
- The header sent with new messages leaves its size field at zero (session.cpp:498-506), which the library's
  reader takes for the size of every element's header (pack.hpp:271-279).
- Reading a text through the session's buffer overwrites the buffer's logical size with the text's length
  (pack.hpp:66) without asking the memory, and an answer that outgrows that size cuts the memory to it.
- The check list is loaded one place too high (query.cpp:297), so a session's message cursor starts at zero.
- The row callback takes the message text from column 0, the table key (query.cpp:175).
- `create_table` prints participation rows user first (query.cpp:96). The shipped database dbt.db declares
  `part(tableKey int, user text, idx int)`, so such a row is kept as the id, an integer if the id is one, before
  the key as a text: it names nobody but a user whose id is the key, and lists the ids' numbers to that user.
  `Order` separates the two readings, and the exact conditions are stated for the one written.
- The buffer doubles once (pack.hpp:112-118); an append is safe exactly when it fits in twice the size.
- An integer stored under a tag, and the sizes of a login, are read through one signed byte (param.h:142,
  session.cpp:165-166).
- A request for new messages finishes twice (session.cpp:511-521). `Policy` names both readings: as written,
  and by completion only, as in the older copy (file 1, lines 515-525).
- A second login keeps the first session's flag array in the registry (session.cpp:533-534), so only a user's
  first session is ever notified.
- The invite handler takes its target from a buffer whose write position is zero (session.cpp:633-638).

Two further readings: an asynchronous operation that ends in an error closes the session, and the running
offset of the slot allocator starts at zero, which param.h:69 leaves unset. No statement of the server writes
the pair relation, the users or the check lists; results about them take the columns' declared types as given.

In the table the main results come first, then the operations and the facts they rest on, file by file.

## Model

| member | source | states |
|---|---|---|
| `QueryBuilder.InsertPairsRoundTrip` | hqery.h:184-264 | the printed insert of any number of column/value pairs parses back to the same table, columns and values if and only if no text value holds a double quote |
| `QueryBuilder.SelectRoundTrip` | hqery.h:266-389 | the printed select over any number of conditions parses back to target, table, columns, symbols and values if and only if no text value holds a double quote |
| `QueryBuilder.InsertIsInjective` | hqery.h:184-264 | two inserts by column/value pairs that print alike, for whichever of the eight tables, are for the same table and have the same pairs |
| `QueryBuilder.SelectIsInjective` | hqery.h:266-389 | two selects that print alike, from whichever tables, are from the same table and have the same conditions and target |
| `QueryBuilder.PrintingIsInjective` | hqery.h:184-413 | two positional inserts that print alike are for the same table with the same values, and no text is printed by two of the three kinds of statement |
| `Splicing.SpliceAddsValue` | hqery.h:305-317 | every text that parses as an insert still does after a splice, with the value last and the old ones before it |
| `Splicing.SpliceAllAddsValues` | hqery.h:305-341 | every text that parses as an insert still does after any number of splices, with the values behind the old ones in the order spliced |
| `Splicing.SpliceIsFaithful` | hqery.h:305-317 | a spliced string is read back as itself if and only if it holds no double quote |
| `Relational.SelectMeaning` | hqery.h:266-389 | lexing, parsing and evaluating the printed select returns exactly the projection of the rows passing the tests read by index, for every code, each value taken as its column's declared type keeps it, and leaves the store alone |
| `Relational.InsertPairsExact` | hqery.h:184-264 | with one pair for each column, executing the printed insert appends exactly the intended row if and only if no text value holds a double quote |
| `Relational.InsertMeaning` | hqery.h:305-413 | a positional insert with spliced values appends them in order, as the declared types keep them, when there is one per stored column, and fails otherwise |
| `Relational.SelectIsReadOnly` | hqery.h:290-296 | with texts executed statement by statement up to the first that fails, a printed select changes no store if none of its text values holds a double quote, or none a semicolon |
| `Relational.ValueCarriesStatement` | hqery.h:290-296 | the condition of `Relational.SelectIsReadOnly` is needed: for every statement text that parses and ends in its semicolon there is a value with which the printed select leaves the store as that statement does |
| `Polling.ExactlyOnceRuns` | query.cpp:160-195 | over every run of messages, other inserts and polls whose polls find a sound cursor, the delivered rows are precisely the table's messages past the first cursor up to the last poll |
| `Polling.SoundCursorIsNecessary` | query.cpp:193-193 | a poll can be continued without repeat or loss if and only if it finds the cursor sound |
| `Cursors.ExactlyOnceEverywhere` | query.cpp:160-205 | with the entry cursor and a session cursor moved after each request, over every run whose requests find sound cursors, each table listed once has had precisely its messages past the first cursor delivered, in row-id order |
| `Cursors.SessionExactlyOnce` | query.cpp:160-205 | from a session's start on any store the server reaches, for a user whose tables can be read, each table listed once has had precisely its messages past the first cursor delivered, over every run whose requests find sound cursors |
| `ServerRuns.ChangeIsRun` | query.cpp:66-193 | on every store the server reaches, a creation, participation, message, invite or connection request leaves exactly the store, last row id included, that its inserts leave in a run of the polling machine: one message, or one row elsewhere, and for a creation the table's row and one participation row for each user; a session's cursor and what it was delivered stay |
| `ServerRuns.ServerExactlyOnce` | query.cpp:66-205 | from a session's start on any store the server reaches, over every run of such statements by anybody and of the user's requests, each of which reads the user's table list afresh and finds the table's cursor sound: if the list can be read at the end it has only grown, and of a table it holds once at the start and once at the end precisely the messages past the first cursor up to the last request have been delivered |
| `ServerRuns.FollowingIsSound` | query.cpp:66-193 | in every run in which each request comes right behind a stored message, or behind another request that did, every request finds the cursor sound for every table |
| `Cursors.SoundRequestIsNecessary` | query.cpp:193-205 | for a table listed once, a request can be gone on from without repeat or loss if and only if it finds the table's cursor sound |
| `Cursors.InviteLosesMessage` | query.cpp:193-193 | from the empty store, one invite, a poll, a message and a poll: the message gets the row id the cursor already has and is not delivered |
| `Cursors.TwiceExactly` | session.cpp:496-522 | two requests as written, on a store and a table list that have only grown, deliver nothing twice if and only if the first table held nothing past the session's cursor and no later one anything past both last row ids |
| `Cursors.TwoRequests` | session.cpp:496-522 | with any run of server statements between two requests as written, nothing is delivered twice if and only if the user's tables cannot be read at the second, or the first table held nothing past the session's cursor and no later one anything past both last row ids; when a message was the last statement, if and only if the first table held nothing past the cursor |
| `Delivery.NotificationAgreesWithDelivery` | session.cpp:403-427 | a send raises the flag of exactly the registered members and no other; a user is a member exactly when then delivered the message, for every user with a number before each of their rows and in general if and only if the two lookups agree about the user; as written the agreement holds for all if and only if the members are those whose first table it is |
| `Deployment.RunsKeepDeployed` | query.cpp:66-132 | over every run of creations, participations, messages, invites and connection requests from a deployed store: the tables are in place, messages and invites are whole with keys that fit an int, messages stand in row-id order, and participation rows hold a number or a text before a text |
| `Deployment.WhoGainsATable` | query.cpp:81-132 | what each change adds to a user's tables: `insert_participation` its table to the user it names; creating a table as written, to the user whose id is the new key in decimal, the numbers of the listed ids, unreadable if one has none; any other change nothing |
| `Deployment.RunsAddNoTable` | query.cpp:81-132 | over every run without `insert_participation`, which nothing calls, a user's table list stays as it was if and only if no creation that lists anybody gives its table the user's id for a key |
| `Deployment.RunsKeepNumberFirst` | query.cpp:81-132 | a user whose id is not an integer in decimal keeps a number before every row naming them, so their tables can always be read, over every run |
| `Requests.NewMessagesEndToEnd` | session.cpp:496-513 | the header sent is zero but for action, command 70, acknowledgement and count; on every store the server reaches, for every user whose tables can be read, the library's reader recovers the delivered rows from the packet as sent if and only if there are none, and with the record's size in its header if and only if their number fits the count |
| `Requests.PacketRoundTrip` | pack.hpp:259-293 | decoding a packet by its own header recovers the messages and leaves nothing if and only if there are none, or the header's size is the record's, the count fits and no text is longer than 32767 |
| `Requests.AnswerFits` | session.cpp:410-506 | an answer can be packed into the emptied session buffer if and only if the user's tables can be read and it delivers nothing or one record fits in twice the logical size |
| `Requests.SessionBufferRuns` | session.cpp:230-506 | over every run of texts read and answers packed, told from lengths alone: the session's buffer is never overrun if and only if no text is longer than the memory of the moment and no answer with a message comes while the last text was shorter than 13 bytes |
| `Requests.AnswerCutsMemory` | pack.hpp:112-118 | an answer that outgrows the size leaves less than twice its own length of memory, whatever there was, and a text that long then overruns it |
| `Wire.MessageStreamRoundTrip` | pack.hpp:233-293 | for any count and header size, reading recovers records and texts and consumes every byte if and only if there is nothing to read and the count is not positive, or count and header size are right and no text is longer than 32767 |
| `Wire.IdListRoundTrip` | session.cpp:281-355 | reading back a written list recovers it and consumes every byte if and only if no id exceeds 256 bytes |
| `Wire.LogcLoginRoundTrip` | query.cpp:145-154 | recovers every pair that fits the client buffer |
| `Wire.SessionLoginRoundTrip` | session.cpp:163-196 | recovers the pair if and only if both parts are shorter than 128 bytes |
| `Buffers.RunOfAppends` | pack.hpp:110-125 | over every run that fits, contents are the concatenation, the size a doubling of the first, and the copied bytes the gain in size, less than twice the bytes written |
| `Buffers.BackPatched` | session.cpp:566-574 | whatever is appended behind a reserved region, and however the buffer grows, patching yields the header followed by the appended records |
| `Buffers.ReservedApart` | pack.hpp:97-108 | storing an offset in the next slot leaves the offsets of all earlier tags readable as they were |
| `Params.SlotsTile` | param.h:80-116 | every byte of the block is in exactly one slot |
| `Params.SlotsAreIndependent` | param.h:147-153 | writing one slot with a value of its size leaves every other slot's bytes alone |
| `Packets.PacketReadsBack` | session.cpp:557-587 | the receiver finds the patched header, whose count is the number of records, and reading that many recovers every invite |
| `Invitations.InviteIsAnswered` | query.cpp:66-237 | once an invite is stored its target's answer gains exactly that invite at the end, and no other user's answer changes |
| `Invitations.InvitePacketReadsBack` | session.cpp:557-587 | the receiver of the packet gets the patched header and exactly the invites stored for the user, with nothing left over |
| `SessionProtocol.RunsInOrder` | session.cpp:121-161 | over every run the protocol stays in order if and only if every request accepted is supported |
| `SessionProtocol.ConnectedRunsInOrder` | session.cpp:51-161 | every run of a session from its connection is in order throughout if and only if every request accepted is supported |
| `SessionProtocol.RunsFollowStages` | session.cpp:121-329 | over every run of supported requests the operations that complete are exactly the stages of the requests popped, in order, then those of the request being served up to the one outstanding; the first failure closes the session, and only a failed write still pops its header |
| `SessionProtocol.ConnectedRunsFollowStages` | session.cpp:51-329 | every run of supported requests from a session's connection completes exactly the stages of its popped requests and those the front request has behind it, until a failure closes it |
| `SessionProtocol.CompletionsPopTheirOwn` | session.cpp:121-329 | after every run of supported requests from the connection on, a completing operation belongs to the command of the front header, by number: the two login stages to 20, the body reads of a message, a connection, an invite and a creation to 80, 81, 82 and 83, the end of a write to 20, 70, 71 or 72; all but the two login stages pop that header |
| `SessionProtocol.LoggedInIffConfirmed` | session.cpp:182-228 | over every run, supported or not, a session is logged in at the end if and only if it was before or a password check of the run succeeded |
| `SessionProtocol.CommandsFollowLogin` | session.cpp:182-266 | from the connection on a session is logged in if and only if a password check succeeded, and no run of supported requests has accepted a command without one |
| `SessionProtocol.UnsupportedRequests` | session.cpp:247-329 | exactly how each accepted unsupported request goes wrong: a command before login or of no known kind is undefined behaviour at once, asking for new messages as written leaves two operations outstanding, and an unknown action leaves its header queued with no operation that could ever end it |
| `SessionProtocol.ConnectedNeverTwoHeaders` | session.cpp:121-161 | over every run from the connection on, in order or not, one header read is outstanding at most and none while a header is queued, so no header arrives while another is queued; and headers are popped in the order accepted |
| `SessionProtocol.NoticesAreServed` | session.cpp:21-113 | the notices of the three flags carry 70, 71 and 72, each the command whose check-list index is the flag; the commands with an index are the ones served, and a logged-in session asked with a notice's command pops that request, except as written for messages |
| `SessionProtocol.RequestsFinish` | session.cpp:225-245 | every accepted request is popped after at most three completions and the session reads the next header |
| `SessionProtocol.FinishingTwiceUnderflows` | session.cpp:496-522 | as written a request for new messages leaves two operations outstanding, and the write's completion pops an empty queue |
| `Notifications.NoLostWakeup` | session.cpp:56-113 | in every interleaving the flag is up if and only if a notification came since the last drain, and notices plus the flag are exactly the bursts, never more than the notifications |
| `Notifications.EverySessionWakes` | session.cpp:5-113 | in every run of logins, list notifications and drains, the first session of a user has a flag up if and only if a list naming the user came since its last drain, its notices and that flag are exactly the bursts of such lists, and any later session of the user has no flag and no notice, ever |
| `SessionPool.RunsConserve` | server.h:57-119 | over every run each created session is in exactly one place, exactly one waits for a connection, and the number created is the most in use at any time |
| `SessionPool.AcceptGoesLive` | server.h:57-88 | an accept puts exactly the waiting session at the end of the live ones, and one that was not live waits next |
| `SessionPool.LiveIsWhoStays` | server.h:57-119 | over every run the live sessions are exactly those accepted and not ended since, in the order accepted, and they are as many as before plus the accepts minus the aborts |
| `SessionPool.StartedLive` | server.h:57-119 | from the start of the server the live sessions are exactly those accepted and not ended since, in the order accepted, and the accepts minus the aborts in number |
| `SessionPool.CreatedIsPeak` | server.h:72-88 | from the start of the server, sessions created equal the peak of live and waiting ones |
| `SessionPool.ReuseIsFifo` | server.h:72-119 | ended sessions are reused in the order they ended |
| `Tables.RunsKeepCounts` | query.cpp:81-102 | over every run of creations every stored count is right at every point: always when rows are written table first, and in the order the code writes if and only if no creation lists an id that is not the new table's key |
| `Tables.MembersAfterCreating` | query.cpp:96-97 | the members query finds the listed users of a new table if and only if the rows were written table first or every listed id is the table's key in decimal |
| `Relations.ParticipationDoubleCount` | query.cpp:269-335 | table-list lengths over all users sum to the number of rows, member-list lengths over all tables to the number of rows that have a number first; the two agree if and only if every row has |
| `Relations.FriendsDoubleCount` | query.cpp:337-360 | friend-list lengths over all users sum to twice the pairs, self-pairs included |
| `Relations.FriendshipIsSymmetric` | query.cpp:337-360 | friendship is symmetric with multiplicity |
| `Handlers.FriendListEndToEnd` | session.cpp:267-301 | the header of the packet sent is zero but for the acknowledgement and the count, and reading as many ids as it counts recovers exactly the user's partners and the whole packet if and only if no id exceeds 256 bytes and their number fits an int |
| `CheckLists.MarksAreShifted` | query.cpp:297-298 | every stored mark is loaded one place above its kind: the message cursor starts at zero, and the stored message mark stands in the invites' place |
| `Relational.InsertPairsMeaning` | hqery.h:184-264 | evaluating the printed insert appends exactly the intended row, as the declared types keep it, under the next row id and changes nothing else |
| `Deployment.ListsGrow` | query.cpp:81-132 | over every run a user's table list only grows, until it can no longer be read |
| `Requests.AnswerLengths` | pack.hpp:110-125 | an answer doubles the logical size until it fits, and the memory then is that size, cut or stretched |
| `Notifications.BoxHears` | session.cpp:5-113 | in every run of logins, list notifications and drains each session's flags and notices are what its own notifications and drains have made of a clear array |
| `Notifications.FirstListens` | session.cpp:533-534 | a session's array is the registered one if and only if no session before it was the same user's |
| `Notifications.ListIsRegistry` | session.cpp:14-18 | a list notification of the run does to the registered flags what the in-place loop does |
| `Notifications.LoginIsRegistry` | nof.h:94-97 | a login of the run does to the registered flags what the registry's insert does |
| `Decimal.StoiRoundTrip` | query.cpp:278-278 | `stoi` on the printed form of any integer gives the integer back |
| `Decimal.StoiReads` | query.cpp:278-278 | behind any blanks the decimal text of an integer, a positive one with or without a plus sign, reads as that integer, whatever follows that is not a digit |
| `Decimal.StoiThrows` | query.cpp:278-278 | reading throws if and only if no digit stands behind the blanks and at most one sign |
| `Decimal.AsIntegerIsRead` | query.cpp:96-278 | a text that an integer column takes for an integer is read back by `stoi` as the same integer |
| `Decimal.AsIntegerOf` | query.cpp:41-41 | an integer column takes the decimal text of an integer for that integer |
| `SqlLexer.LexInt` | query.cpp:41-41 | the decimal text of every integer, negative ones included, lexes to that one number |
| `SqlLexer.QuotingIsFaithful` | query.cpp:13-19 | quoting without escaping: the printed string is read back as that string if and only if it holds no double quote |
| `SqlLexer.LexQuotes` | query.cpp:13-19 | every double quote of a text that lexes is accounted for by its text tokens: two for each, and two more for each quote inside |
| `SqlLexer.QuotedIsMisread` | query.cpp:13-19 | a printed string with a double quote inside never reads back as itself, whatever but a double quote follows it |
| `QueryBuilder.DescriptorsAreSound` | hqery.h:139-149 | each of the eight descriptors has single-word names, distinct columns, and none that hides the row id |
| `QueryBuilder.InsertQueryWithPair2` | hqery.h:244-264 | accumulates exactly the two-column insert text of the shared text specification |
| `QueryBuilder.InsertQueryWithStrings` | query.cpp:21-40 | the string/string specialisation prints what the generic builder prints for two quoted values |
| `QueryBuilder.InsertQueryWithPair3` | hqery.h:216-242 | the three-column insert text |
| `QueryBuilder.InsertQueryWithPair4` | hqery.h:184-214 | the four-column insert text |
| `QueryBuilder.InsertQuery` | hqery.h:391-413 | the positional insert text |
| `QueryBuilder.SelectQuery1` | hqery.h:266-300 | the one-condition select text, with `*`, `rowid` and column targets and row-id conditions |
| `QueryBuilder.SelectQuery2` | hqery.h:343-389 | the two-condition select text |
| `QueryBuilder.InsertRoundTrip` | hqery.h:391-413 | the printed positional insert parses back to table and values if and only if neither text value holds a double quote |
| `Splicing.AddConditionToInsertQuery` | hqery.h:305-317 | puts the value before the last closing parenthesis of the caller's text; a text without one is left as it was |
| `Splicing.AddConditionsToInsertQuery` | hqery.h:322-341 | the two-value overload leaves what two one-value calls leave |
| `Splicing.SpliceTwice` | hqery.h:322-341 | for any spliced texts, parentheses included, a second splice lands right behind the first |
| `Relational.CodesThatMeanTheirName` | hqery.h:63-150 | a printed comparison symbol means what its enumerator says if and only if the code is 0, 1 or 2 |
| `Relational.ValuesAreOrdered` | hqery.h:63-70 | the order behind the five comparisons is one strict order of all values but NULL: of two exactly one of less, equal and greater holds, it is transitive, integers stand by size and before every text |
| `Relational.FirstDifference` | hqery.h:63-70 | texts compare by their first differing character, and without one the shorter comes first |
| `Queries.SchemaAgrees` | hqery.h:139-146 | every descriptor column is where the stored table has it, except the misspelt fourth column of the check list |
| `Queries.PushTexts` | query.cpp:345-357 | the row callback appends the first column of every row |
| `Queries.GetTable` | query.cpp:269-286 | the numbers in the rows its statement yields |
| `Queries.LookupsAreReadOnly` | query.cpp:269-360 | the lookups of a user's tables and friends change nothing unless the id holds both a double quote and a semicolon |
| `Queries.LookupCanStore` | query.cpp:269-286 | there are ids by which the lookup of a user's tables appends a pair to the pair relation |
| `Queries.GetTableMeaning` | query.cpp:269-286 | for a quote-free user exactly the numbers that stand or begin in the rows naming the user, in row order, or an exception where one cannot be read; the store unchanged |
| `Queries.GetDiningMembers` | query.cpp:319-335 | the texts in the rows its statement yields |
| `Queries.GetDiningMembersMeaning` | query.cpp:319-335 | exactly the users of the rows that have the table's number first, in row order, whatever the other rows hold first; the store unchanged |
| `Queries.GetFriendList` | query.cpp:337-360 | the texts of both statements, one after the other, and the store they leave |
| `Queries.GetFriendListMeaning` | query.cpp:337-360 | exactly the partners on either side of the pair relation, the store unchanged |
| `Messages.InsertMessage` | query.cpp:304-317 | executes the printed message insert and hands back the connection's last row id |
| `Messages.InsertMessageMeaning` | query.cpp:304-317 | appends exactly that message, stamped by the column default |
| `Messages.PollMeaning` | query.cpp:163-164 | the polling statement answers exactly the table's messages past the cursor |
| `Messages.GetNewMessageInTable` | query.cpp:160-195 | packs those messages into the buffer, counts them, and moves the cursor to the last inserted row id |
| `Messages.PackRows` | query.cpp:169-190 | the row callback over all rows: two appends per message and the count |
| `Messages.PackMessage` | query.cpp:177-184 | one message: its record, then its text |
| `Messages.PolledMeaning` | query.cpp:169-190 | what a poll packs is the fresh rows, one for one and in order |
| `Messages.TextColumnMatters` | query.cpp:175-178 | with column 0 taken for the text, a message comes through as itself if and only if its text is its table key in decimal |
| `Messages.PollThenRead` | pack.hpp:233-293 | what a poll of a deployed store wrote into an empty buffer is read back to the last byte if and only if there was nothing, or the reader is given the number of messages and the record's size |
| `Messages.PacksFromEmpty` | pack.hpp:110-125 | an emptied buffer packs messages with short texts if and only if there are none or one record fits in twice its logical size |
| `Polling.PollStep` | query.cpp:160-195 | a poll step of the run model is what the polling statement does to store, cursor and answer |
| `Polling.NewestIsSound` | query.cpp:193-193 | the cursor is sound when the newest message was the last thing inserted |
| `Polling.FreshAscends` | query.cpp:163-190 | delivered rows are stored rows in strictly ascending row-id order |
| `Delivery.GetNewMessage` | query.cpp:197-205 | lists the user's tables and packs, table after table, what each poll returns, the cursor moving between tables; sums the counts; leaves the store the listing left |
| `Delivery.PollList` | query.cpp:200-203 | the loop over the user's tables |
| `Delivery.PolledAreDelivered` | query.cpp:197-205 | what is packed is the delivered message rows of all tables |
| `Delivery.SendMessage` | session.cpp:411-414 | stores the message and raises the message flag of the members found |
| `Delivery.WhoGetsTheMessage` | query.cpp:197-205 | the new message is delivered to exactly those among whose tables its table is with a fixed cursor, and to exactly those whose first table it is with the moving one |
| `Requests.SendNewMessages` | session.cpp:506-511 | header with the count, then the packed messages |
| `Requests.RgetNewMessage` | session.cpp:496-520 | sends the header with the count and the packed messages past the session's message cursor, which is written back unchanged |
| `Requests.AnswerMeaning` | query.cpp:197-205 | on every store the server reaches a request changes nothing and packs exactly the rows delivered to the user, or throws where the user's tables cannot be read |
| `Packets.HeaderFieldsSurvive` | pack.hpp:9-23 | each field of a header is found at its place in the encoding and survives if and only if it is within its own width, whatever the others hold |
| `Cursors.RequestByTable` | query.cpp:197-205 | with the entry cursor a request delivers of each table what is new, as often as the table is listed |
| `Cursors.OnceIfListedOnce` | query.cpp:197-205 | with the entry cursor a request delivers what is new in a table once if and only if there is nothing new or the table is listed once |
| `Cursors.RunSeen` | query.cpp:160-205 | a session's run of requests over all tables is, seen from any table listed once, a run of polls of that table |
| `CheckLists.GetCheckList` | query.cpp:288-302 | loads column i of the stored row at place i of the list |
| `CheckLists.SessionInit` | session.cpp:525-538 | the check list loaded, then the name and a fresh array, linked in the registry if and only if the user was not there |
| `Tables.PrintParticipation` | query.cpp:94-99 | the positional insert with the index spliced in |
| `Tables.InsertParticipation` | query.cpp:118-132 | one participation row, table first |
| `Tables.CreateTable` | query.cpp:81-102 | the table row and one participation row per listed user, user first, with running indices |
| `Tables.TableMeaning` | query.cpp:83-85 | appends exactly the host and the number of users |
| `Tables.ParticipationMeaning` | query.cpp:96-98 | appends exactly the row the declared types keep: written user first, an id that is an integer as that integer, then the key as a text |
| `Tables.CreatedRows` | query.cpp:81-102 | a creation appends one table row and the users' rows as the declared types keep them, and nothing else to either |
| `Tables.CreatingKeepsCounts` | query.cpp:81-102 | creating a table keeps every stored count the number of its rows, numbered from 0, if and only if the rows are written table first or every listed id is the new table's key |
| `Tables.CreatingAddsUsers` | query.cpp:81-132 | written table first, a creation gives the new table its users in list order with running indices, and leaves earlier rows and other tables' participants alone |
| `Deployment.NewStoreIsDeployed` | query.cpp:81-132 | empty tables meet what the results about answers assume |
| `Deployment.ChangeKeepsDeployed` | query.cpp:66-132 | each statement that stores keeps it: tables in place, whole messages and invites with keys that fit an int, messages in row-id order, participation rows of a number or a text before a text |
| `Relations.MemberIffParticipant` | query.cpp:269-335 | for a user whose tables can be read, a table is among them if and only if the user is among its members or a text that begins with its number stands before the user |
| `Relations.MemberOfNumbered` | query.cpp:269-335 | with a number before each of a user's rows, a table is among the user's tables if and only if the user is among its members |
| `Bytes.SignedRoundTrip` | hqery.h:152-165 | a signed field of any width holds a number if and only if the number is in its range |
| `Bytes.FirstByteOnly` | param.h:142-142 | four bytes read through one signed byte give the number back if and only if it is in -128..127 |
| `Params.GetAllSize` | param.h:90-102 | the sum of the slot sizes |
| `Params.OneOfEach` | param.h:90-102 | a block with one slot of each type has them at 0, 1, 101, 105 and 113 and ends at 121 |
| `Params.Param.constructor` | param.h:37-42 | slots laid out for the given types, nothing bound |
| `Params.Param.Set` | param.h:106-116 | each slot starts where the ones before it end, and together they fill the block |
| `Params.Param.SetArgs` | param.h:120-123 | a repeated name keeps its first binding |
| `Params.Param.SetInt` | param.h:147-153 | overwrites exactly the four bytes of the slot |
| `Params.StoredIntReadsBack` | param.h:131-153 | a stored integer reads back unchanged if and only if one signed byte can hold it |
| `Buffers.PBuffer.constructor` | pack.hpp:36-40 | an empty buffer of the given size |
| `Buffers.PBuffer.InitRecord` | pack.hpp:58-58 | forgets the contents, keeps the size |
| `Buffers.PBuffer.Nsrc` | pack.hpp:66-66 | sets size and write position; the memory and its length stay |
| `Buffers.PBuffer.Grow` | pack.hpp:112-119 | doubles the logical size, keeps the contents, and leaves memory of just that length |
| `Buffers.PBuffer.AllocateSome` | pack.hpp:110-125 | appends the bytes, with size and copying cost as in the abstract buffer |
| `Buffers.PBuffer.ReserveWithTag` | pack.hpp:97-108 | skips the region, binds a fresh tag to the next slot, stores the offset there, and leaves every earlier tag's slot alone |
| `Buffers.PBuffer.AllocateWithTag` | pack.hpp:127-136 | overwrites the contents at the tag's stored offset |
| `Buffers.OneDoublingSuffices` | pack.hpp:112-118 | the single doubling is enough if and only if the contents then fit in twice the size |
| `Buffers.RunFromNew` | pack.hpp:110-125 | from a new buffer, over every run that fits: contents, size and copying cost below twice the bytes written |
| `Buffers.SmallAppendsFit` | pack.hpp:110-125 | appends no larger than the first size always fit |
| `Buffers.SizeAfterRun` | pack.hpp:110-125 | after a run of small appends the size is the first one doubled until the bytes fit, and the memory that size if it was doubled at all |
| `Buffers.StoredOffsetIsExact` | pack.hpp:133-136 | a stored offset leads back to its region if and only if it is at most 127 |
| `Wire.Socket.Read` | session.cpp:349-350 | the next bytes, or an exception when the stream ends first |
| `Wire.Socket.Write` | session.cpp:298-299 | appends to what was sent |
| `Wire.DecodeEncoded` | hqery.h:152-165 | each field of a message record is found at its place in the encoding, and a record survives if and only if every field is within its width |
| `Wire.ReadElementWithPair` | pack.hpp:233-257 | as many header bytes as it is told, then as many bytes as the header's size field says |
| `Wire.DecodeAnyCase` | pack.hpp:259-293 | that many elements, in order, each behind a header of the given size |
| `Wire.SendIdWithDesc` | session.cpp:293-301 | descriptor and id |
| `Wire.DescriptorInFront` | session.cpp:293-301 | an id travels behind eight bytes, its length, which survives if and only if it fits an int, and a key that is always zero |
| `Wire.SendIds` | session.cpp:281-288 | every id of the list, in order |
| `Wire.ReadUserList` | session.cpp:342-355 | the ids read through the 256-byte array, none for a negative count |
| `Wire.ReqLoginHandle` | cle.h:133-150 | sizes, id and password, copied one after the other into the client buffer |
| `Wire.ReadIdAndPassword` | session.cpp:163-196 | the two-stage decoding of the session, and what is left on the stream |
| `Packets.GetNewIvtReq` | query.cpp:207-237 | packs all invites of the user and counts them |
| `Packets.PackInviteRows` | query.cpp:217-231 | the row callback over all rows |
| `Packets.PackInvite` | query.cpp:223-229 | one invite: its record, then the sender |
| `Packets.InviteChunksAreStream` | query.cpp:223-229 | the appends concatenate to the record stream |
| `Packets.ShortSendersFit` | session.cpp:566-572 | invites from senders of at most 256 bytes never overrun the buffer |
| `Packets.ResponseReqGetNewIvt` | session.cpp:557-587 | the packet sent is the patched header with the number of records, followed by exactly the records; the store is the one the lookup leaves |
| `Packets.HeaderRoundTrip` | pack.hpp:9-23 | a header survives encoding and decoding if and only if every field is within its width |
| `Packets.InviteStreamRoundTrip` | query.cpp:221-231 | reading the written invites back recovers each of them and leaves nothing |
| `Invitations.InsertInvite` | query.cpp:66-77 | executes the printed invite insert |
| `Invitations.InsertInviteMeaning` | query.cpp:66-77 | appends exactly that invite, stamped |
| `Invitations.InsertConnection` | query.cpp:104-116 | executes the printed connection insert |
| `Invitations.InsertConnectionMeaning` | query.cpp:104-116 | appends exactly that request, stamped |
| `Invitations.InviteQueryMeaning` | query.cpp:207-237 | the answer packs exactly the invites stored for the user, in row order, and always fits its buffer; the store unchanged |
| `Notifications.Registry.Insert` | nof.h:94-97 | a user already present keeps its array, which is returned |
| `Notifications.Registry.Notify` | session.cpp:5-12 | raises one flag of a registered user |
| `Notifications.Registry.NotifyWithList` | session.cpp:14-18 | raises it for each user of the list |
| `Notifications.NotifiedAllIs` | session.cpp:14-18 | exactly the registered members of the list get the flag, all other flags stay |
| `Notifications.ListOrderIrrelevant` | session.cpp:14-18 | order and repeats in the list do not matter |
| `Notifications.Mailbox.SessionInit` | session.cpp:531-536 | the name, a fresh array, linked in the registry if and only if the user was not there |
| `Notifications.Mailbox.CheckMailBox` | session.cpp:56-113 | queues one notice per raised flag of the three kinds and clears them |
| `Notifications.DrainOrder` | session.cpp:65-106 | notices come in the order message, invite, connection |
| `SessionProtocol.Session.constructor` | session.h:76-100 | a connected session reads its first header |
| `SessionProtocol.Session.SessionTaskInPlace` | session.cpp:121-146 | reads a header when none is queued, else serves the front one |
| `SessionProtocol.Session.ReadHandleInPlace` | session.cpp:457-481 | dispatches to command or action |
| `SessionProtocol.Session.CommandInPlace` | session.cpp:247-266 | what each command starts or finishes |
| `SessionProtocol.Session.ActionInPlace` | session.cpp:302-329 | the body read each action starts |
| `SessionProtocol.Session.TaskEndInPlace` | session.cpp:230-245 | pops the finished header and goes on |
| `SessionProtocol.Session.DecodeHader` | pack.hpp:175-213 | when a header is taken, refused or undefined |
| `SessionProtocol.Session.HeaderReadInPlace` | session.cpp:148-161 | the header handler |
| `SessionProtocol.Session.ContinueInPlace` | session.cpp:163-228 | the continuations of a request |
| `SessionProtocol.Session.FailInPlace` | session.cpp:541-555 | an operation ending in an error closes the session |
| `SessionProtocol.Session.Handle` | session.cpp:121-245 | one completion, as the transition function says |
| `SessionProtocol.StepInOrder` | session.cpp:121-161 | a step keeps one queued header at most, one outstanding operation, no fault and the pop history, if and only if it accepts no unsupported request |
| `SessionPool.Server.constructor` | server.h:42-48 | a started server waits on a first, new session |
| `SessionPool.Server.Run` | server.h:72-88 | the oldest reusable session, or a new one, waits for a connection |
| `SessionPool.Server.HandleAccept` | server.h:57-63 | the waiting session goes live and another waits |
| `SessionPool.Server.InsertSessionIntoReusableList` | server.h:108-111 | behind those already waiting for reuse |
| `SessionPool.Server.NotifyAbortConnection` | server.h:113-119 | the session leaves the live list and waits for reuse |
| `SessionPool.StepConserves` | server.h:57-119 | each created session is in exactly one place and exactly one waits for a connection |
| `Handlers.RgetFriendList` | session.cpp:267-292 | header with the count, then the ids; the store is the one the lookups leave |
| `Handlers.ResponseActCreateChatTable` | session.cpp:331-361 | reads the list, creates the table, answers its key and raises the invite flag of exactly the list; nothing on a bad stream |
| `Handlers.ReadTarget` | session.cpp:632-638 | the target string is empty whatever was read |
| `Handlers.ReadThroughSource` | session.cpp:369-371 | the text read into the front of the session's buffer, whose logical size becomes its length |
| `Handlers.ResponseActSendMsg` | session.cpp:403-427 | reads the text through the session's buffer, stores the message and notifies the members found; nothing if the stream ends |
| `Handlers.ResponseActInvite` | session.cpp:627-640 | stores and notifies the invite for the empty id |
| `Handlers.InviteReachesTarget` | session.cpp:636-638 | for each registry: the notification is the one meant if and only if the target is the empty id or neither has a flag still to be raised |
| `Handlers.ResponseActConnect` | session.cpp:363-384 | stores the request and raises the receiver's connection flag |

## Left out

- Buffers.PBuffer.AllocateSome: requires the append to fit in twice the size, because beyond it the code writes past its memory.
- Buffers.PBuffer.ReserveWithTag: requires the region to fit and fewer than four tags, because the code neither grows here nor has a fifth slot.
- Buffers.PBuffer.Nsrc: requires a size within the memory; the code takes it from the network, negative ones included, and would read past the memory.
- Handlers.ReadThroughSource: requires the same of the announced length.
- Handlers.ResponseActSendMsg: requires the same of the text's length.
- Handlers.ResponseActConnect: requires the same of the receiver's length.
- Messages.GetNewMessageInTable: requires every returned row to convert, because an exception out of the row callback ends the server, and the answer to fit, because the code would write past its memory; `Messages.PacksFromEmpty` says when it does.
- Delivery.GetNewMessage: requires the same, for the same reasons.
- Requests.SendNewMessages: requires the same; `Requests.AnswerFits` says exactly when it holds of a store the server reaches.
- Requests.RgetNewMessage: requires the same, and models what is sent; the order of its completion belongs to the session protocol.
- Packets.GetNewIvtReq: requires every invite row to convert and the answer to fit; `Invitations.InviteQueryMeaning` shows both of a store the server reaches.
- Packets.ResponseReqGetNewIvt: requires the same.
- Relational.SelectIsReadOnly: one direction, for every value; that values with both characters can change the store is `Relational.ValueCarriesStatement`, which of them do depends on all that they hold.
- Relational.SelectMeaning: a double-quoted token is a string; the engine first tries it as a column name.
- Wire.ReadElementWithPair: reads the whole element at once; the code's `read_some` may return less.
- Wire.DecodeAnyCase: returns the elements; the code stores them into copies and is never instantiated.
- SessionProtocol.Session.FailInPlace: an error closes the session whatever its code; the code closes on end of file and reset only, and runs on after an error in the header handler.
- SQL beyond the printed statements: such a statement fails here.
- Texts in an integer column that are numbers with a fraction, an exponent or more than 64 bits; primary keys, locking and errors of the database engine.
- 32-bit limits of integers inside the database; they are stated where integers travel in fixed fields.
- The contents of timestamps: eight or twenty opaque bytes given by a function of the stored value.
- Struct padding, and pointers inside structs beyond their width.
- The answer with connection requests (session.cpp:590-617, query.cpp:239-267): it is packed as the invite answer is, and copies twenty bytes over an eight-byte time.
- Password lookup (query.cpp:43-61): one select; the protocol takes the outcome of a login as given.
- The mailbox loop, threads, logging, the console, the demonstration client and the SSL client.
- Members that do nothing or are not called, string-typed slot reads, and the log-out code.
- Freeing of memory and sharing of pointers.
