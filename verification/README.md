# Verified model of twitch-chat-worker

The Dafny files here model the parts of the chat worker that keep state and have no I/O of their own, and
prove what those parts are for:

- **URI engine** (`Bytes`, `PercentCodec`, `Decimal`, `UriSpec`, `UriRoundTrip`, `UriGrammar`, `PathSegments`,
  `WellKnownPorts`, `Uri`): percent codec, parser, printer, dot segments. `UriSpec` and `PathSegments` say on
  values what the code computes; the class `Uri` has the fields, cursors and loops of the code, and every
  method is proved equal to its function, also for the fields a throwing parser leaves behind.
- **Byte ring** (`BufferStatic`): the cursors `head`, `tail` and `size` over an array, proved against a
  plain byte queue.
- **Connection pool** and **worker pool** (`DBConnectionPool`, `ThreadPool`): monitors as interleavings of
  their critical sections, with notifications as steps of their own, spurious wake-ups and barging.
- **Channel distribution** (`ChannelList`): which session gets which channels while sessions log in and
  disconnect.
- **Timer queue** (`Timer`), **batches** (`Storage`), **round-robin cursors** (`RoundRobin`).

The main results:

1. Printing a URI and parsing the text gives back an equal URI *if and only if* the URI is well formed, a
   condition on the fields alone (`UriRoundTrip.RoundTripExactly`, and `UriClass.Uri.EqualToText` for the
   comparison operator of the class). Every text of the generic syntax is read as its components, with the port
   of the table where none is given (`UriGrammar.ParseReadsAbsolute`), what is printed is such a text
   (`UriGrammar.PrintIsText`), and well-formed URIs are equal if and only if they print alike
   (`UriGrammar.EqualExactlyIfPrintedAlike`).
2. Removing dot segments keeps what a path denotes, is idempotent, and leaves a relative reference that
   always survives printing and parsing.
3. The ring refines a byte queue over every run of requests, direct writes and pointer fetches, from every
   valid buffer: the answers and the bytes held are the queue's, so what went in is what came out followed
   by what is held, and a user who throws nothing away reads exactly the bytes written (`Ring.Drive`). How much a direct write may take depends on the ring, and it is never
   nothing while there is space.
4. In every interleaving of the connection pool connections are conserved, no wake-up is lost, some client
   can always go on, runs are bounded, and when none can go on everybody has been served.
5. In every interleaving of the worker pool tasks are taken exactly once and in order; runs are bounded by
   the accepted tasks and the spurious wake-ups, when nobody can go on every accepted task has run, and a
   shutdown ends after a bounded number of steps with all workers gone.
6. Whenever all sessions of a client are logged in, every channel is attached, whatever happened before, as
   long as each login found its session with room for what it was given. A second login in a row is possible:
   the login timeout detaches a session on the client's thread (irc/IRCClient.cpp:157-161) while the selector's
   thread may be reporting its login (irc/IRCSession.cpp:246-255), and then the reconnect logs in once more. It
   can cost coverage later (`ChannelSteps.RepeatedLoginUncovers`), and the bounds that fitting logins keep are
   exactly what coverage needs (`ChannelSteps.BoundsAreNeeded`).
7. Every stored message is put in a batch in arrival order or dropped, every batch is processed at most once,
   and nothing is lost or sent twice however the process calls overtake each other
   (`StorageSteps.NothingIsLostOrSentTwice`). On the one worker thread that the agent is bound to
   (Controller.cpp:108-110) the calls deliver in arrival order (`StorageSteps.OneThreadDeliversInOrder`). The
   handlers are subscribed as thread safe (Storage.cpp:49-55); on a dispatcher that runs them concurrently,
   which the program does not use, the order holds if and only if each call is made while no older batch with
   messages waits for its own (`StorageSteps.ArrivalOrderExactly`), and two flushes can overtake each other
   (`StorageSteps.FlushesMayOvertake`).
8. A pass of the timer queue fires exactly the due entries in order and leaves the queue in the order in which
   it will fire next; over every run nothing fires early, twice, or too soon after itself, no timer is lost
   (`TimerSteps.NoTimerIsLost`), and each stands at the time asked for or exactly its repeat after its last
   call (`TimerSteps.RunKeepsOnTime`).

A class method that models one critical section or one call carries the function it computes in its
`ensures`; the lemmas say what follows from those functions. Where the source throws, the method returns
the error and the state it leaves.

Conventions. A byte is an integer below 256; a plain `char` may be signed, which changes nothing because
both readings escape the same bytes. `unsigned int` lengths of the ring are below 2^32 and `expandSize`
adds modulo 2^32. `memcpy` is modelled as reading its source before writing, also in `normilize`, where the
ranges can overlap. The locale of `tolower` is "C". The clock, the outcome of `createConnection`, which
sleeper `notify_one` wakes and which sessions are connected are parameters. The mutexes appear as the
atomicity of the methods; fields such as `clients`, `workers` and `enqueuing` record where each thread
stands.

The code differs from its documentation in two places that matter here. `normalize` is documented as
keeping leading "." and ".." segments (common/URI.h:188); it always removes "." (but may put one in front
of a segment with a ':'), and for absolute URIs it removes leading ".." too. `getLinearFreeSpace` is
documented as the free linear space (common/BufferStatic.h:108); on a full buffer whose tail is not at the
end of the array it is positive, `Ring.BufferStatic.GetLinearFreeSpace` states exactly when it is right, and
`Ring.FullBufferClaimsRoom` reaches such a buffer with three calls.

## Model

| member | source | states |
|---|---|---|
| PercentCodec.DecodeEncode | common/URI.cpp:461-512 | decoding undoes encoding without an error, for every byte string and every reserved set |
| PercentCodec.EncodeConcat | common/URI.cpp:461-478 | encoding distributes over concatenation |
| PercentCodec.EncodedByteIs | common/URI.cpp:462-477 | a letter, a digit, one of "-_.~" or a printable byte neither illegal nor reserved stays; any other becomes '%' and two upper-case digits with its value |
| PercentCodec.EncodeChangesNothingExactly | common/URI.cpp:461-478 | a text is its own encoding if and only if all its bytes stay plain |
| PercentCodec.ReservedAre | common/URI.h:255-257 | the reserved sets are "?#" for a path, "#" for a query and nothing for a fragment |
| PercentCodec.EncodedIsSafe | common/URI.cpp:461-478 | encoded text is printable, holds none of the illegal characters, each '%' in it starts an escape, and a reserved byte occurs only if it never needs escaping |
| PercentCodec.EncodedPathAvoidsDelimiters | common/URI.h:255-258 | an encoded path holds neither '?' nor '#' |
| PercentCodec.EncodedQueryAvoidsHash | common/URI.cpp:282-285 | the raw query after setQuery is free of '#' |
| PercentCodec.DecodeSucceedsExactly | common/URI.cpp:480-512 | decode returns normally if and only if each '%' is followed by two hex digits |
| PercentCodec.DecodeStopsAtFirstBadEscape | common/URI.cpp:484-511 | when decode throws, it has appended the decoding of all that precedes the first bad escape, and which error it throws depends on how much follows |
| PercentCodec.DecodeConcat | common/URI.cpp:480-512 | what follows a text that decodes normally is decoded on its own |
| PercentCodec.DecodePieces | common/URI.cpp:484-511 | a byte other than '%' stays, and an escape becomes the byte of its two digits |
| PercentCodec.HexDigitsAre | common/URI.cpp:491-507 | the digits in either case and what they stand for |
| Bytes.LowerByteIsTolower | common/URI.cpp:199-204 | capitals go to the small letter of the same place, all else stays |
| Bytes.DelimitersAre | common/URI.cpp:523-628 | the delimiters are these ASCII characters |
| UriClass.Uri.EncodeTo | common/URI.cpp:461-478 | the loop appends exactly the encoding to what was there |
| UriClass.Uri.DecodeTo | common/URI.cpp:480-512 | the loop appends exactly the decoding, or the decoded prefix and the error |
| Decimal.FromCharsOfToDecimal | common/Utils.h:31-36 | reading a printed number gives the number back, for everything an int holds |
| Decimal.FromCharsReads | common/Utils.h:31-36 | from_chars on leading zeros, a number of any size and whatever follows, with or without a minus sign |
| Decimal.FromCharsNeedsDigit | common/Utils.h:31-36 | without a digit the result stays 0 |
| Decimal.DigitsHavePlaces | common/Utils.h:31-36 | digits count with the power of ten of their place |
| Decimal.ToDecimalHasNoZero | common/URI.cpp:249-252 | a printed port has no leading zero |
| UriClass.Uri.GetAuthority | common/URI.cpp:238-254 | the authority text: user info, host in brackets if it has a ':', port unless it is 0 or that of the table |
| UriClass.Uri.ToString | common/URI.cpp:168-197 | the printed text, with the "//" and the slash it inserts |
| UriClass.Uri.GetPathEtc | common/URI.cpp:311-323 | encoded path, raw query, encoded fragment |
| UriClass.Uri.ParseHostAndPortOf | common/URI.cpp:566-597 | host and port as parsed, or the error and the unchanged rest of the fields |
| UriClass.Uri.ParseAuthorityAt | common/URI.cpp:550-564 | where the authority ends, host and port from what follows the last '@', user info lost on success and half-set on an error |
| UriClass.Uri.ParsePathEtcAt | common/URI.cpp:599-628 | path, query and fragment as parsed, or the fields at the error |
| UriClass.Uri.SetSchemeTo | common/URI.cpp:199-204 | lower-case scheme; a port that is set stays, else it is that of the table or 0 |
| UriClass.Uri.ParseUri | common/URI.cpp:523-548 | the whole parser, on success and on every error |
| UriClass.Uri.EqualTo | common/URI.cpp:401-409 | componentwise equality with default ports filled in, so for well-formed URIs whether they print alike |
| UriClass.Uri.EqualToText | common/URI.cpp:387-390 | comparison with a text; comparing with the URI's own text succeeds if and only if the URI is well formed |
| UriClass.Uri.SetPathEtc | common/URI.cpp:302-309 | replaces path, query and fragment by what is parsed |
| UriClass.Uri.SetQuery | common/URI.cpp:282-285 | the raw query is free of '#' and decodes to the query that was set, nothing else changes |
| UriClass.Uri.GetQuery | common/URI.cpp:287-291 | the decoded query, or the error |
| UriRoundTrip.RoundTripExactly | common/URI.cpp:168-254 | for every table of default ports and every URI: parsing the printed text gives an equal URI if and only if the URI is well formed |
| UriRoundTrip.AbsoluteSurvives | common/URI.cpp:523-628 | well-formed absolute URIs survive, with bracketed hosts, explicit and default ports and any bytes in path and fragment |
| UriRoundTrip.RelativeSurvives | common/URI.cpp:168-172 | well-formed relative references survive |
| UriRoundTrip.AbsoluteSurvivorIsWellFormed | common/URI.cpp:523-628 | no other absolute URI does |
| UriRoundTrip.RelativeSurvivorIsWellFormed | common/URI.cpp:523-548 | no other relative reference does |
| UriRoundTrip.ParsedShape | common/URI.cpp:523-628 | the range of the parser: no user info, lower-case scheme and host without delimiters, query without '#' |
| UriRoundTrip.AuthorityRoundTrip | common/URI.cpp:238-254 | with "//" printed, host, port, path, query and fragment come back |
| UriRoundTrip.BracketedHostIsScannedShort | common/URI.cpp:566-577 | a host that opens a bracket but is printed without brackets is read back shorter or not at all |
| UriRoundTrip.AuthorityEatsFirstSegment | common/URI.cpp:535-542 | a path printed where an authority is expected loses its first segment |
| UriRoundTrip.PrintedPathHasScheme | common/URI.cpp:527-530 | a printed relative reference reads as having a scheme exactly when a ':' precedes the first '/' in a path that starts with neither '.' nor '/' |
| UriRoundTrip.PathEtcRoundTrip | common/URI.cpp:302-323 | path, query and fragment come back, whatever bytes path and fragment hold |
| UriRoundTrip.PathEtcRestoredExactly | common/URI.cpp:302-323 | setPathEtc(getPathEtc()) restores the three parts if and only if the raw query is free of '#' |
| UriGrammar.ParseReadsAbsolute | common/URI.cpp:523-628 | every text scheme ":" [ "//" authority ] path [ "?" query ] [ "#" fragment ] is read as its components (section 3 of RFC 3986): lower-case scheme and host, no user info, the port asked for or that of the table, path and fragment decoded, query as it is; and which error comes first |
| UriGrammar.ParseReadsRelative | common/URI.cpp:543-547 | a text without a scheme is read as path, query and fragment |
| UriGrammar.ParseErrors | common/URI.cpp:532-533 | nothing behind the scheme, or an open bracket, is an error of its own kind |
| UriGrammar.ReadAuthority | common/URI.cpp:550-597 | host and port of every authority text, brackets and a missing or empty port included; a bad port leaves the user info set |
| UriGrammar.ReadPathText | common/URI.cpp:599-628 | path, query and fragment of every text, and the fields at a bad escape |
| UriGrammar.SplitAroundLastAt | common/URI.cpp:553-559 | the pieces around the last '@' |
| UriGrammar.DefaultPortIsRead | common/URI.cpp:199-203 | "scheme://host" leaves the port of the table, or 0 if the table has none |
| UriGrammar.WebPortsAre | common/URI.cpp:11-56 | http, https, ws and wss have ports 80, 443, 80 and 443 |
| UriGrammar.PrintIsText | common/URI.cpp:168-197 | what toString prints, as a text of the syntax: the port only if it is not the default, brackets exactly around a host with ':', "//" for "file" and any authority, and the slash it adds |
| UriGrammar.EqualExactlyIfPrintedAlike | common/URI.cpp:401-409 | equal URIs print alike, and of well-formed ones only equal URIs do |
| UriClass.Uri.GetPathSegments | common/URI.cpp:444-459 | the loop finds the non-empty pieces between slashes |
| UriClass.Uri.BuildPathFrom | common/URI.cpp:658-673 | the loop joins the segments, with slashes and the protective "./" |
| UriClass.Uri.RemoveDots | common/URI.cpp:415-438 | the stack loop, then joining |
| UriClass.Uri.Normalize | common/URI.cpp:411-413 | leading ".." are removed exactly for absolute URIs |
| PathSegments.SegmentsOfBuildPath | common/URI.cpp:444-459 | splitting a built path gives the segments back, with one "." in front exactly where buildPath inserts it |
| PathSegments.RemoveDotSegmentsKeepsMeaning | common/URI.cpp:415-438 | walking the normalised path ends where walking the original ends: from every base directory if leading ".." are kept, from the root if they are removed (section 5.2.4 of RFC 3986 over segments) |
| PathSegments.RemoveDotSegmentsIsNormal | common/URI.cpp:415-438 | what is left has no ".", all ".." in front, and none at all if leading ones are removed |
| PathSegments.RemoveDotSegmentsIdempotent | common/URI.cpp:415-438 | normalising twice is normalising once |
| PathSegments.NormalizeWalks | common/URI.cpp:423-436 | the stack loop from any normal stack keeps the walk |
| PathSegments.NormalizeUriMeans | common/URI.cpp:411-413 | with a scheme no ".." is left and the path leads from the root to the same place; without one it does from everywhere |
| PathSegments.WalkGoes | common/URI.cpp:423-436 | what a path denotes: names go down, "." stays, ".." goes back and stays at the root |
| PathSegments.BuildPathHasSingleSlashes | common/URI.cpp:658-673 | a built path has no two slashes in a row; without segments it is a slash or nothing |
| PathSegments.NormalizedReferenceSurvives | common/URI.cpp:411-413 | a normalised relative reference survives printing and parsing if and only if its query is free of '#' |
| PathSegments.UnnormalizedReferenceMayBeLost | common/URI.cpp:168-172 | without normalising, "a:b" does not survive |
| Ring.BufferStatic.constructor | common/BufferStatic.h:17-19 | an empty buffer in order |
| Ring.BufferStatic.AppendData | common/BufferStatic.h:26-67 | as on a queue in every layout; where the tail ends up; a refused call changes nothing |
| Ring.BufferStatic.GetDataWith | common/BufferStatic.h:171-229 | copies out the oldest bytes and removes them unless told not to, in every layout; where the head ends up; InvalidUsage for both flags |
| Ring.BufferStatic.Get | common/BufferStatic.h:70-72 | the bytes copied out followed by what is left are what was held; which refusal when |
| Ring.BufferStatic.Peek | common/BufferStatic.h:75-77 | the first bytes held are copied out and nothing changes |
| Ring.BufferStatic.Seek | common/BufferStatic.h:80-82 | removes exactly that many bytes without copying |
| Ring.BufferStatic.GetLinearFreeSpace | common/BufferStatic.h:109-119 | the figure is the room behind the append pointer if and only if the buffer is not full or its tail is at the end; it is positive and within the free space while there is any |
| Ring.FullBufferClaimsRoom | common/BufferStatic.h:108-119 | append two, get one, append one at capacity two: a full buffer with a positive figure |
| Ring.BufferStatic.GetLinearAppendPtr | common/BufferStatic.h:121-129 | keeps the contents, and the free space read before the call is the room behind the pointer |
| Ring.BufferStatic.ExpandSize | common/BufferStatic.h:131-139 | sum modulo 2^32; a length within the room is accepted and appends what was written, and no longer one up to the free space keeps the buffer in order |
| Ring.WriteDirectly | common/tests/BufferStaticTest.cpp:448-476 | free space, pointer, write, expandSize: exactly an append, granted exactly up to the room behind the append pointer, which is the smaller of the two free-space figures |
| Ring.Drive | common/BufferStatic.h:25-169 | over every run of requests, direct writes and pointer fetches on a valid buffer, the ring gives the queue's answers and holds the queue's bytes, within the capacity; bytes accepted are bytes removed followed by bytes held, and without seek and clear the bytes read out are those written, in order |
| Ring.Perform | common/BufferStatic.h:25-169 | one such call answers and leaves what the queue does, and finds at least one byte of linear room in a buffer that is not full |
| Ring.AskFor | common/BufferStatic.h:25-169 | a request is granted if and only if the bytes fit, or are there; what is held and handed out then; a refusal changes nothing |
| Ring.BufferStatic.MoveBlocksToFront | common/BufferStatic.h:145-159 | the moved blocks are the contents in order, from the front |
| Ring.BufferStatic.Normilize | common/BufferStatic.h:141-163 | contents unchanged, head 0, tail equal to size, the contents at the start of the array |
| Ring.BufferStatic.Reset | common/BufferStatic.h:165-169 | empties the buffer |
| Ring.HeldIsBlocks | common/BufferStatic.h:185-217 | the contents are one block or two |
| Ring.WriteStraightAppends | common/BufferStatic.h:32-38 | writing behind the data in one block appends |
| Ring.WriteSplitAppends | common/BufferStatic.h:39-50 | writing over the end and the beginning appends |
| ByteQueue.RunConserves | common/BufferStatic.h:25-169 | the queue that Drive refines conserves: over every run of calls, with any linear room, bytes accepted are bytes removed followed by bytes held, and no more than the capacity is held |
| ByteQueue.AnswersTell | common/BufferStatic.h:25-169 | the answers alone tell what went in and, without seek and clear, what was removed |
| ConnectionPoolSteps.StepKeepsInv | db/DBConnectionPool.cpp:30-51 | every critical section and notification keeps conservation and the wake-up cover |
| ConnectionPoolSteps.EveryRunIsSafe | db/DBConnectionPool.cpp:17-51 | over every interleaving: idle plus lent connections are the created ones, nobody shares one, and while someone sleeps woken clients plus pending notifications are at least the idle connections |
| ConnectionPoolSteps.StepWork | db/DBConnectionPool.cpp:30-51 | every step but an arrival and a spurious wake-up brings the work down |
| ConnectionPoolSteps.RunIsBounded | db/DBConnectionPool.cpp:30-51 | the length of a run is bounded by the work there was, the arrivals and the spurious wake-ups |
| ConnectionPoolSteps.SomebodyGoesOn | db/DBConnectionPool.cpp:35-37 | as long as a client is in the pool some client can take a step by itself |
| ConnectionPoolSteps.StuckServesEverybody | db/DBConnectionPool.cpp:30-51 | when none can, nobody is in the pool and every connection is idle |
| DBConnectionPools.DBConnectionPool.Init | db/DBConnectionPool.cpp:17-28 | the pool holds exactly the connections that could be created, all of them and in order; active if and only if there is one |
| DBConnectionPools.SuccessesArePicked | db/DBConnectionPool.cpp:20-25 | the places of all successful calls, in order, are where the connections of the pool come from |
| DBConnectionPools.DBConnectionPool.LockConnection | db/DBConnectionPool.cpp:30-43 | nothing from an inactive pool, else the oldest idle connection or sleep |
| DBConnectionPools.DBConnectionPool.ResumeWait | db/DBConnectionPool.cpp:35-42 | the wait loop after a wake-up |
| DBConnectionPools.DBConnectionPool.UnlockPush | db/DBConnectionPool.cpp:46-49 | the connection goes back to the end of the queue |
| DBConnectionPools.DBConnectionPool.UnlockNotify | db/DBConnectionPool.cpp:50 | one sleeper is woken if there is one |
| ThreadPoolSteps.EveryRunIsSafe | common/ThreadPool.cpp:9-44 | over every interleaving: tasks leave in order, each is taken once, workers exit only after stop with nothing queued, nobody sleeps after notify_all, no wake-up is lost before stop |
| ThreadPoolSteps.StepKeepsInv | common/ThreadPool.cpp:11-29 | every critical section keeps all of that |
| ThreadPoolSteps.NothingAcceptedAfterStop | common/ThreadPool.h:49-55 | no task is accepted once stop is set |
| ThreadPoolSteps.AllExitedMeansAllRun | common/ThreadPool.cpp:36-44 | when one or more workers have all exited, exactly the accepted tasks have run |
| ThreadPoolSteps.QueuedTaskGoesOn | common/ThreadPool.cpp:15-22 | while a task is queued and there is a worker, somebody goes on |
| ThreadPoolSteps.OpenStepWork | common/ThreadPool.cpp:11-29 | every step but an accepted enqueue and a spurious wake-up brings the work down |
| ThreadPoolSteps.RunIsBounded | common/ThreadPool.cpp:11-29 | the length of a run is bounded by the work there was, five for each accepted task and two for each spurious wake-up |
| ThreadPoolSteps.StuckHasRunAll | common/ThreadPool.cpp:11-29 | when nobody can go on, the queue is empty and exactly the accepted tasks have run |
| ThreadPoolSteps.ShutdownStepDecreasesWork | common/ThreadPool.cpp:36-44 | after stop every step decreases the work left |
| ThreadPoolSteps.ShutdownDrains | common/ThreadPool.cpp:36-44 | after stop there are at most that many steps, and when none is left all workers have exited and every accepted task has run |
| ThreadPools.ThreadPool.EnqueueLocked | common/ThreadPool.h:48-57 | the accepted path: the task goes to the back of the queue |
| ThreadPools.ThreadPool.LookForTask | common/ThreadPool.cpp:15-22 | sleep, exit or take the oldest task, and when which |
| ThreadPools.ThreadPool.NotifyOneWorker | common/ThreadPool.h:57 | one sleeper is woken if there is one |
| ThreadPools.ThreadPool.FinishTask | common/ThreadPool.cpp:24-28 | the worker's task has run and the worker looks again |
| ThreadPools.ThreadPool.SetStop | common/ThreadPool.cpp:37-40 | the flag is set, nothing else changes |
| ThreadPools.ThreadPool.NotifyAllWorkers | common/ThreadPool.cpp:41 | nobody sleeps afterwards |
| ThreadPools.ThreadPool.JoinAll | common/ThreadPool.cpp:42-43 | joining succeeds when all workers have exited, and then every accepted task has run |
| ChannelSteps.ReserveCounts | irc/IRCChannelList.cpp:71-90 | as many channels as there is room for, or all unattached ones, move to the session; no other session's count changes |
| ChannelSteps.ReserveChanges | irc/IRCChannelList.cpp:78-87 | only unattached channels are taken, and nothing else about the table changes |
| ChannelSteps.ReserveTakesFirst | irc/IRCChannelList.cpp:78-87 | a channel is taken if and only if it is unattached and fewer unattached ones than the room stand in front of it |
| ChannelSteps.CountsAreNumbers | irc/IRCChannelList.cpp:71-100 | the counts used in the bounds are the numbers of channels |
| ChannelSteps.DetachCounts | irc/IRCChannelList.cpp:92-100 | the session holds nothing, its channels become unattached, others keep theirs |
| ChannelSteps.StepKeepsInv | irc/IRCClient.cpp:356-375 | every login, disconnect and join notice keeps the client's invariant, and keeps the coverage bounds if and only if it is not a login of a session without room for what it is given |
| ChannelSteps.LogInKeepsUnattachedBound | irc/IRCClient.cpp:356-372 | every login, also of a session that still holds channels, keeps the bound on unattached channels |
| ChannelSteps.DisconnectStep | irc/IRCClient.cpp:374-375 | a disconnect keeps the bound on what sessions hold, and the one on unattached channels if the session was within its own |
| ChannelSteps.Coverage | irc/IRCChannelList.cpp:71-100 | over every run from the loaded list the bounds hold throughout if and only if every login fits; then each session holds at most n / k + 1 channels, the unattached are at most that times the sessions out, and with all k logged in every channel is attached |
| ChannelSteps.BoundsAreNeeded | irc/IRCChannelList.cpp:71-100 | in any state the bounds hold if and only if every continuation whose logins fit has all channels attached whenever it ends with everybody in |
| ChannelSteps.RepeatedLoginUncovers | irc/IRCClient.cpp:356-372 | two logins in a row of one session, then fitting ones: everybody is in and some channel is attached to nobody |
| ChannelSteps.RecheckMissesNothing | irc/IRCClient.cpp:201-219 | checking only what the last check found finds what checking the whole list would, if and only if no listed channel stopped being joined in between |
| ChannelSteps.CheckIsOver | irc/IRCClient.cpp:202-207 | the check ends exactly when all listed channels still known are joined |
| ChannelSteps.NotJoinedFinds | irc/IRCChannelList.cpp:121-136 | the check finds the places of all known channels that are not joined, in order |
| ChannelSteps.NoticeTakesOut | irc/IRCChannelList.cpp:59-64 | a join notice takes its channel, and no other, out of what the next check finds |
| ChannelLists.IRCChannelList.Load | irc/IRCChannelList.cpp:25-41 | one detached, not joined channel for each loaded name |
| ChannelLists.IRCChannelList.ReserveChannelsForSession | irc/IRCChannelList.cpp:71-90 | the first n / k + 1 unattached channels, or all there are, now belong to the session; nothing else changes |
| ChannelLists.IRCChannelList.DetachAndPartFromSession | irc/IRCChannelList.cpp:92-100 | exactly the session's channels are detached and marked not joined |
| ChannelLists.IRCChannelList.MarkChannelJoined | irc/IRCChannelList.cpp:59-64 | a known channel is joined and keeps its session; no other changes |
| ChannelLists.IRCChannelList.SelectNotJoinedChannels | irc/IRCChannelList.cpp:121-136 | the known channels of the list that are not joined, in order |
| ChannelLists.IRCClient.OnLoggedIn | irc/IRCClient.cpp:356-372 | n / k + 1 unattached channels, or all there are, are attached to the session and returned; from within the bounds every channel is covered once all sessions are in, and the bounds stay exactly when the session had room |
| ChannelLists.IRCClient.OnDisconnected | irc/IRCClient.cpp:374-375 | exactly the session's channels are detached and not joined; the coverage bounds stay |
| ChannelLists.IRCClient.EvtChannelJoined | irc/IRCClient.cpp:197-199 | the channel is joined and keeps its session, no other changes; the coverage bounds stay |
| ChannelLists.IRCClient.EvtCheckJoinedChannels | irc/IRCClient.cpp:201-219 | which channels are rejoined and whether another check follows |
| TimerSteps.PassIsExact | common/Timer.cpp:49-70 | a pass fires the due entries once each in queue order, drops one-shots, files intervals again at exactly now plus repeat, and leaves nothing due and the queue sorted; under each key the entries that were there keep their order and the refiled ones follow in firing order |
| TimerSteps.InsertIsStable | common/Timer.cpp:63 | a filed entry stands behind those with its key, and no others change places |
| TimerSteps.RunIsInTime | common/Timer.cpp:45-73 | over every run no timer fires before the time asked for, a one-shot fires at most once, and two firings of an interval are at least its repeat apart, whatever the clock does |
| TimerSteps.RunKeepsOnTime | common/Timer.cpp:24-67 | over every run each queued timer stands at the time asked for until it first fires, and then exactly its repeat after its last firing |
| TimerSteps.NoTimerIsLost | common/Timer.cpp:24-73 | over every run each timer asked for is queued or has fired; it is queued, once and with its repeat, exactly if it is an interval or has not fired |
| Timers.Timer.FireAt | common/Timer.cpp:55-68 | one turn of the loop, and that the iterator it leaves never points at a due entry it has passed |
| Timers.Timer.FireDue | common/Timer.cpp:50-69 | the loop ends and computes the pass |
| Timers.Timer.RunOnce | common/Timer.cpp:47-70 | what fires, what stays and in which order, and that nothing is due afterwards |
| Timers.Timer.SetTimerAt | common/Timer.cpp:24-27 | files a one-shot at exactly the timestamp, and nothing else |
| Timers.Timer.SetIntervalFrom | common/Timer.cpp:34-39 | files an interval at exactly now plus the interval; its repeat is the one asked for exactly when that fits an int |
| StorageSteps.EveryRunAccounts | Storage.cpp:81-127 | over every interleaving: each stored message is put in a batch, in arrival order, or dropped; each batch is processed at most once, never exceeds the batch size, and is a contiguous piece of the messages put in |
| StorageSteps.ArrivalOrderExactly | Storage.cpp:81-127 | over every interleaving: if each process call is made while no older batch with messages waits for its own, the calls deliver the messages put in, in arrival order, at every moment and in the end all of them; with messages that can be told apart, only then |
| StorageSteps.CallKeepsOrderExactly | Storage.cpp:101-102 | a process call keeps arrival order if and only if it is in turn |
| StorageSteps.SwapsAloneExactly | Storage.cpp:93-101 | over every run: whichever outstanding call comes next is in turn, at every moment, if and only if no batch with messages is swapped out while another waits for its call |
| StorageSteps.OneAtATimeDeliversInOrder | Storage.cpp:93-101 | callers that swap out only then get arrival order at every moment, and in the end everything |
| StorageSteps.OneThreadDeliversInOrder | Controller.cpp:108-110 | for every sequence of handlers run to their end one after another, as on the agent's one thread: they swap out only with nothing waiting, the calls deliver in arrival order at every moment, and after each handler the delivered messages and the batch are all that was put in, in order |
| StorageSteps.NothingIsLostOrSentTwice | Storage.cpp:81-127 | over every interleaving, at every moment each message put in is delivered, in a batch that waits for its call, or in the current batch, as often as it was put in |
| StorageSteps.FlushesMayOvertake | Storage.cpp:48-56 | on a dispatcher that runs the thread-safe handlers concurrently, which Controller.cpp:108-110 does not choose: two flushes swap in one order and process in the other, and everything is processed, but not in arrival order |
| StorageSteps.StepKeepsInv | Storage.cpp:202-228 | every step keeps the account |
| StorageSteps.ProcessCalls | Storage.cpp:202-228 | exactly one process call for each processed batch |
| StorageSteps.StoresKeepExactly | Storage.cpp:202-214 | n stores without a flush keep n - n / (batchSize + 1) messages |
| Storages.Batch.StoreLocked | Storage.cpp:202-210 | appends, or swaps the full batch out and drops the message |
| Storages.Batch.SwapLocked | Storage.cpp:93-99 | the batch is swapped out and empty |
| Storages.Batch.ProcessBatch | Storage.cpp:129-164 | the one call for its batch is recorded; an empty batch is not inserted, a batch the server refuses is logged and lost, and any other exception leaves the call |
| Storages.Batch.StoreMessage | Storage.cpp:202-214 | store without interference, and when an exception leaves it |
| Storages.Batch.FlushBatch | Storage.cpp:93-101 | a flush without interference empties the batch, throws exactly when the insert ends in an exception it does not catch, and, if the calls so far were up to date, leaves everything put in a batch handled in arrival order |
| Storages.Storage.Flush | Storage.cpp:109-127 | nothing stays in either batch, unless an exception leaves the first process call, and then the log batch is as it was; if all swapped out before was processed in the order of the swaps, the process calls have handled, in arrival order, everything ever put in a batch |
| SessionCursors.IRCClientSessions.GetNextSessionRoundRobin | irc/IRCClient.cpp:336-343 | the session at the cursor, which moves on around the ring; a single session, whatever the cursor, which stays |
| SessionCursors.IRCClientSessions.GetNextConnectedSessionRoundRobin | irc/IRCClient.cpp:345-354 | the first connected session from the cursor on whenever there is one, else the last tried with the cursor back in place |
| SelectorPools.ShareOfNext | irc/IRCSelectorPool.cpp:40-47 | the cursor's selector is the one whose share grows |
| SelectorPools.ShareIsBalanced | irc/IRCSelectorPool.cpp:40-47 | shares are the floor or the ceiling of n / m |
| SelectorPools.IRCSelectorPool.AddSession | irc/IRCSelectorPool.cpp:24-29 | after any number n of calls each of the m selectors has the floor or the ceiling of n / m sessions |
| SelectorPools.IRCSelectorPool.GetNextSelectorRoundRobin | irc/IRCSelectorPool.cpp:40-47 | the selector at the cursor; the cursor moves on around the ring |

## Left out

- Sockets, `select`, libircclient, HTTP, PostgreSQL, ClickHouse, Lua, PCRE, logging and configuration: I/O and foreign code; connecting, sending and inserting are steps with any outcome.
- SObjectizer wiring, statistics counters and exception class macros: plumbing.
- `URI::resolve` and `URI::mergePath`: in `mergePath` the parameter hides the field, so its slash tests look at the relative path; section 5.2.3 of RFC 3986 is not claimed.
- User info in parsed URIs: `parseAuthority` overwrites it, so a URI with user info never survives printing and parsing, and the well-formedness condition says so.
- Slashes in a path without segments: "/.." becomes "" and "./" becomes "/"; the statements about meaning are about segments.
- The order of `std::map` iteration in the channel list: the model keeps the order in which names were loaded; nothing proved depends on it.
- A session count of zero or below: the source divides by it, after converting it to an unsigned number.
- `joinToChannel`, `leaveFromChannel` and a reload: the capacity moves with the number of channels, so the coverage bound does not carry over; a join notice may also arrive after a detach, so "joined" does not imply "attached".
- `removeSession`: on selectors that do not hold the session it erases an iterator that was not found.
- The cursor after a reload to fewer, but several sessions: `evtReload` does not reset it, and then the source reads behind the end of the vector; a cursor in range is required of the caller unless there is one session.
- `ThreadPool::enqueue` after stop: it waits, with the mutex held, for a result nobody will compute; only the accepted path is modelled.
- Callbacks that set timers while the pass holds the mutex, and time stamps near the end of `long long`.
- Tasks that throw: a packaged task keeps the exception for its future, so the worker goes on.
- The columns of an insert: whether the server takes a batch is a parameter; as in the source, a refused batch is not tried again. What the dispatcher does with an exception that leaves a handler, and an insert through the null connection of an inactive pool.
- Fairness of the scheduler: the progress results say that some step is possible and that runs are bounded, not that the operating system takes the step.
