# rjk-nntp-tools: a verified model

This project models the parts of rjk-nntp-tools that have something to lose: the
gateway that turns repository commits into news articles and must post each one
at most once, the calendar arithmetic behind the graphs and the Date header, the
buffered connection to the news server, the spool statistics and the news-log
counters. Each source file has a module of its own. Where the source changes
things step by step there is a class or a method with a loop, proved against a
function; what the source promises is then proved about the function, over all
inputs, all histories or all runs. Concurrency and crashes are state machines:
every step another thread or a later process could observe is a step of the
machine.

| file | models |
|---|---|
| `text.dfy`, `map_sum.dfy` | byte strings as strcmp, isdigit and printf see them; sums over maps |
| `byte_order.dfy`, `search_tree.dfy`, `seen_store.dfy` | lib/seen.c: the set of posted commits as a search tree in a file |
| `nntp.dfy` | lib/nntp.c: responses, dot-stuffing and the POST dialogue |
| `post_queue.dfy` | lib/nntp.c: the job queue, its mutex and condition variable |
| `gateway.dfy` | gateways/bzr2news.c, lib/nntp.c and lib/seen.c together, with a server, crashes and restarts |
| `gateway_progress.dfy` | the same machine: that every run can be brought to its end |
| `git_log.dfy` | gateways/bzr2news.c: reading `git log` |
| `calendar.dfy`, `time_codes.dfy`, `time_axis.dfy`, `date_text.dfy`, `date_zones.dfy` | gmtime and timegm; graph/TimeGraph.cc; lib/utils.c and lib/parse_date.cc |
| `buffered_io.dfy` | lib/io.c over a kernel that may do anything |
| `news_sources.dfy` | sources/sources.cc |
| `csv.dfy`, `article_property.dfy` | lib/parse_csv.cc, spoolstats/ArticleProperty.cc |
| `article_headers.dfy`, `group_dedup.dfy`, `spool_count.dfy`, `spool_meaning.dfy`, `spool_scan.dfy` | spoolstats: Article.cc, AllGroups.cc, SenderCountingBucket.cc |

## What the proofs turned up

- A commit is recorded as soon as it is queued, so articles are posted at most
  once, not exactly once. When the process ends, the fate of every recorded
  commit is decided: whatever runs follow, the server comes to hold it if and
  only if it holds it by then (`Gateway.RecordedIsFinal`). The guard is that
  join_postthread has returned: then a server that takes what it is sent holds
  every new commit of the log (`Gateway.JoinLosesNothing`); without it, a crash
  can lose a commit for good (`Gateway.RecordedButNeverPosted`).
- graph/TimeGraph.cc:81 says the hour code is good for trillions of years where
  `long` has 64 bits; the sum is done in `int` and overflows from the year
  132972 on (`TimeCodes.HourCodeFitsInt`). The next hour, day and month are
  later if and only if the time is in 1900 or after; before that each step goes
  back by at least 84 days (`TimeCodes.NextIsLater`), so a drawing loop that
  starts there never ends (`TimeCodes.LoopNeverEnds`).
- A printed date is read back as the same time exactly from the year 1900 on
  (`DateText.DateRoundTrip`).
- A commit with a blank message stops git2news at an assert, and no other kind
  of commit does (`GitLog.LogRoundTrip`).
- Where `char` is signed, csv_quote prints bytes from 0x80 on as eleven octal
  digits, where spoolstats/spoolstats.1:137 promises at most three, and exactly
  the texts without such bytes survive
  (`Csv.QuoteRoundTrip`), which decides for whole rows and files
  (`Csv.RowRoundTrip`, `Csv.FileRoundTrip`).
- A hierarchy is counted twice for one article when the bare name is listed, some
  deeper group of it is listed, and a listed group of another configured
  hierarchy sorts between the two; never otherwise (`GroupDedup.HierarchyCount`,
  `GroupDedup.CountedTwice`).
- The low-water mark hides a whole directory whose name is a number below the
  mark (`SpoolScan.NumberedDirectoryIsSkipped`); `SpoolScan.WalkIsFilter` says
  exactly when it hides nothing.
- spoolstats/Article.cc:63: the loop that should drop blanks after a header's
  value never runs, and they stay (`ArticleHeaders.TrailingBlanksStay`).

## Noticed while reading

No proof bears on these.

- spoolstats/Article.cc:30: an article without Newsgroups is undefined behaviour
  if it is accepted, so the callers of the model must supply the header then.
- spoolstats/ArticleProperty.cc:90: a row of fewer than three values is read out
  of bounds.
- lib/Timezones.cc: most entries are minutes, where the parser takes seconds.
- lib/nntp.c:226 tests with `||` where `&&` seems meant, and the counter it
  guards is never initialised.
- lib/io.c leaves a stale line size behind after an error, so a caller that tries
  again breaks the precondition of io_getline.

## Model

| member | source | states |
|---|---|---|
| `ByteOrder.LinksSurviveSwap` | lib/seen.c:46-70 | a link converted to file order and back is unchanged, stays 64 bits wide, and is 0 in the file exactly when it is 0: 0 keeps meaning "none" |
| `ByteOrder.PortableIsBswap` | lib/seen.c:46-70 | the htonl branch and the bswap branch are the same function of all 64-bit values |
| `ByteOrder.StoredBigEndian` | lib/seen.c:46-70 | a link is stored as its eight bytes, the most significant first |
| `SearchTree.DescendFinds` | lib/seen.c:88-105 | on an ordered tree the descent ends inside the tree, and at the sought ID exactly when it is there |
| `SearchTree.AppendKeepsSet` | lib/seen.c:113-127 | stopping after the first of the two writes leaves a tree for the old set, the new node unreachable; the root, which needs no second write, counts at once |
| `SearchTree.AttachAddsKey` | lib/seen.c:128-157 | linking a node where the descent ends adds exactly its key and keeps the order of the whole tree |
| `SearchTree.LinkAddsKey` | lib/seen.c:107-157 | the second write goes from the old set to the old set plus the commit at once, whatever earlier crashes left in the file |
| `SearchTree.DuplicateIsUnreachable` | lib/seen.c:134-140 | remembering a known commit adds one unreachable node and changes nothing reachable |
| `SearchTree.HistoryIsSet` | lib/seen.c:107-157 | after any run of calls, any of them stopped between its writes, the file is a search tree for exactly the remembered commits |
| `SearchTree.SearchAfterHistory` | lib/seen.c:88-105 | after any such run a search answers yes for the remembered commits and no others |
| `SeenStore.EncodeDecode` | lib/seen.c:37-70 | a node written to the 64-byte form is read back as it was |
| `SeenStore.DescentTurn` | lib/seen.c:94-102 | one turn of either loop stays on the same descent and moves strictly down the file, so both end |
| `SeenStore.RewriteLink` | lib/seen.c:141-154 | rewriting one stored link of the parent in place is setting that child in the tree |
| `SeenStore.StoredSet` | lib/seen.c:107-157 | wherever a call stops, the file is a tree; only a finished call, or the write of the root, adds the commit |
| `SeenStore.SeenFile.Get` | lib/seen.c:74-86 | end of file, a torn last node and an unterminated ID are told apart from a good node, the last two being fatal |
| `SeenStore.SeenFile.Seen` | lib/seen.c:88-105 | the answer is membership in the remembered set; only a file that is one torn node is fatal |
| `SeenStore.SeenFile.Remember` | lib/seen.c:107-157 | the file goes to the tree for the call's fate, a torn file refuses and is untouched, and the file is valid afterwards in every case |
| `SeenStore.SeenFile.AppendNode` | lib/seen.c:109-124 | the new node is the last of the file, without children |
| `SeenStore.SeenFile.LinkLast` | lib/seen.c:128-157 | the loop finds the parent and links the last node, or wastes it if the commit is known |
| `Nntp.BlockRoundTrip` | lib/nntp.c:196-216 | reading the bytes sent by RFC 3977 section 3.1.1 gives the article, plus a final newline if it lacked one, and stops exactly at the terminator |
| `Nntp.BlockInjective` | lib/nntp.c:196-216 | articles with the same bytes on the wire differ at most in their final newline |
| `Nntp.EveryLfHasCr` | lib/nntp.c:207-211 | every LF sent follows a CR |
| `Nntp.ResponseCodeOfLine` | lib/nntp.c:74-95 | a three-digit code with text that does not go on with a digit, ending in CRLF, is understood as that code |
| `Nntp.ResponseLineOfCode` | lib/nntp.c:74-95 | nothing else is: every line that is understood has that form |
| `Nntp.ServerReadsWholeArticles` | lib/nntp.c:184-236 | however often authentication interrupts, the server reads one whole copy of the article per invitation and nothing else |
| `Nntp.Session.SendBlock` | lib/nntp.c:196-216 | the sending loop writes the stuffed block |
| `Nntp.Session.Post` | lib/nntp.c:184-236 | the bytes written are those the answers call for; a final answer to a complete article is returned, and it dies only if the answers end or the command is refused |
| `Nntp.Session.SendAndWait` | lib/nntp.c:196-236 | the same from the invitation on |
| `Nntp.Session.Stat` | lib/nntp.c:239-251 | STAT is asked again for each demand to authenticate, and the first other answer is the result |
| `Nntp.Session.Handle` | lib/nntp.c:327-328 | the article is offered exactly if STAT is not answered 223 |
| `PostQueue.StepKeepsInv` | lib/nntp.c:274-345 | every step of every thread keeps the lock discipline, the order of jobs and the wake-up discipline |
| `PostQueue.FirstInFirstOut` | lib/nntp.c:323-333 | in every interleaving jobs are finished in the order they were queued, each once; the queue is the rest |
| `PostQueue.NoLostWakeup` | lib/nntp.c:340-342 | the posting thread never sleeps while a job waits or the end was announced, except while the announcer still holds the lock |
| `PostQueue.ExitMeansAllFinished` | lib/nntp.c:337-354 | the thread exits, and join returns, only when every job posted has been finished |
| `PostQueue.JoinIsNotStuck` | lib/nntp.c:380-400 | after join has unlocked, the posting thread is awake and can always step, each step brings its exit nearer, and nobody interferes |
| `Gateway.StepKeepsInv` | gateways/bzr2news.c:160-280 | every step of main thread, posting thread, server, crash and restart keeps the invariant, and the remembered set only grows |
| `Gateway.AcceptedAtMostOnce` | lib/nntp.c:323-333 | over all runs and crashes anywhere no message ID is accepted twice |
| `Gateway.SeenIsNeverQueuedAgain` | gateways/bzr2news.c:174-177 | a commit in the tracking file is never queued again, in this run or a later one |
| `Gateway.JoinSettlesEverything` | gateways/bzr2news.c:268-279 | when join has returned, every commit recorded in this run was found by STAT or had its POST answered, and with the earlier ones they are the whole log |
| `Gateway.FileOnlyGrows` | lib/seen.c:107-157 | across steps and restarts the file stays a tree and forgets nothing |
| `Gateway.RecordedIsFinal` | gateways/bzr2news.c:174-177 | of the commits recorded when a process ends, the server holds after any later runs exactly those it held then: the others are lost |
| `Gateway.JoinLosesNothing` | lib/nntp.c:380-400 | once join has returned, a server that takes what it is sent and answers STAT truthfully holds every commit of the log not recorded before |
| `GatewayProgress.CanAlwaysFinish` | gateways/bzr2news.c:160-280 | every run that fatal has not stopped goes on, without a restart and with a willing server, to where join returns; if the server has been willing all along it then holds every new commit of the log |
| `GatewayProgress.NextIsGood` | lib/nntp.c:276-343 | short of that there is always a next step, of one thread or the other, and it brings the end nearer |
| `Gateway.UnsettledIsQueued` | gateways/bzr2news.c:268-279 | at any moment of a run, a commit it has recorded is settled or still in the queue |
| `Gateway.RecordedButNeverPosted` | gateways/bzr2news.c:274-279 | a run in which a crash leaves a commit recorded that the server does not hold after any run that continues it |
| `GitLog.LogRoundTrip` | gateways/bzr2news.c:451-537 | run over the log of any commits, the machine hits an assert exactly when some message is blank, and otherwise delivers exactly the recent commits, in order, with their fields and messages |
| `GitLog.FeedLog` | gateways/bzr2news.c:475-523 | after the last line the last commit is pending and all earlier ones have been delivered |
| `GitLog.FeedNextCommit` | gateways/bzr2news.c:505-515 | the first line of a commit completes the one before, or stops at the assert if that has no message |
| `GitLog.NoiseIsIgnored` | gateways/bzr2news.c:481-486 | blank and indented lines before the first commit change nothing |
| `GitLog.AccumulateNone` | gateways/bzr2news.c:516-520 | leading blank lines are dropped; nothing is accumulated exactly for a blank message |
| `GitLog.StripLine` | gateways/bzr2news.c:476-479 | trailing whitespace goes and nothing else |
| `GitLog.CollectHeader` | gateways/bzr2news.c:489-500 | the name ends at the first colon or blank, the text starts after the blanks that follow |
| `GitLog.CompleteGitCommit` | gateways/bzr2news.c:417-449 | a commit is handed on exactly if it is young enough and has an ID |
| `GitLog.ProcessGitArchive` | gateways/bzr2news.c:451-537 | the loop delivers what the line-by-line machine delivers and stops where it stops |
| `Calendar.TimeGmOfGmTime` | graph/TimeGraph.cc:75-151 | timegm undoes gmtime for every time, and gmtime's fields are in range (IEEE Std 1003.1-2017, section 4.16) |
| `Calendar.GmTimeOfTimeGm` | graph/TimeGraph.cc:75-151 | gmtime undoes timegm for every date with fields in range |
| `Calendar.YearStep` | graph/TimeGraph.cc:139-146 | consecutive years are one year's length apart, leap rules included |
| `Calendar.MonthTwelve` | graph/TimeGraph.cc:122-130 | month 12 is January of the next year: what adding 1 to December relies on |
| `Calendar.MonthLengths` | graph/TimeGraph.cc:122-130 | thirty days have September, April, June and November |
| `Calendar.LeapYears` | graph/TimeGraph.cc:139-146 | the Gregorian rule |
| `Calendar.WeekdaysFollow` | lib/utils.c:273-281 | the Epoch is a Thursday, and the days of the week follow one another |
| `TimeCodes.CodesInOrder` | graph/TimeGraph.cc:75-137 | the packed codes never decrease with time, and hour and day codes are equal exactly within one hour or day |
| `TimeCodes.HourBounds` | graph/TimeGraph.cc:75-95 | unpacking an hour code gives the start of the hour; with 1 added, its end, even past midnight, month and year |
| `TimeCodes.DayBounds` | graph/TimeGraph.cc:97-113 | the same for days |
| `TimeCodes.MonthBounds` | graph/TimeGraph.cc:115-130 | the same for months |
| `TimeCodes.YearBounds` | graph/TimeGraph.cc:132-146 | the same for years |
| `TimeCodes.NextIsLater` | graph/TimeGraph.h:59-70 | the next hour, day and month are later exactly from 1900 on, and at least 84 days earlier before; the next year is always later |
| `TimeCodes.NextBorrows` | graph/TimeGraph.cc:85-130 | before 1900 every digit borrows: what the next hour, day and month come out as |
| `TimeCodes.LoopNeverEnds` | graph/TimeGraph.cc:43-60 | a drawing loop that starts before 1900 goes back for ever |
| `TimeCodes.HourCodeFitsInt` | graph/TimeGraph.cc:75-83 | the hour code fits an int exactly up to the year 132971 |
| `TimeCodes.FailsBefore1900` | graph/TimeGraph.cc:85-95 | the hour after the last one of 1899 is an hour of the August before |
| `TimeAxis.CoversEachOnce` | graph/TimeGraph.cc:29-73 | ranges that cover a span contain each time of it in exactly one range, and no other time |
| `TimeAxis.TimeGraph.DefineX` | graph/TimeGraph.cc:29-73 | whichever unit is chosen, the limits hold both times and the ranges drawn cover them exactly |
| `TimeAxis.TimeGraph.HourAxis` | graph/TimeGraph.cc:30-38 | the hour's ranges are ten minutes each and cover it |
| `TimeAxis.TimeGraph.DayAxis` | graph/TimeGraph.cc:39-48 | the day's ranges are hours and cover it |
| `TimeAxis.TimeGraph.MonthAxis` | graph/TimeGraph.cc:49-54 | the month's ranges are days and cover it |
| `TimeAxis.TimeGraph.YearAxis` | graph/TimeGraph.cc:55-60 | the year's ranges are its twelve months and cover it |
| `TimeAxis.TimeGraph.YearsAxis` | graph/TimeGraph.cc:61-67 | the ranges of several years are those years and cover them |
| `DateText.DateRoundTrip` | lib/utils.c:273-281 | printing a time and parsing the text gives it back exactly when its year is 1900 or later |
| `DateText.ParsePrinted` | lib/parse_date.cc:50-165 | the parser reads every field of a printed date as it was, the year unless it is before 1900 |
| `DateText.EpochText` | lib/utils.c:273-281 | the Epoch is printed as "Thu, 01 Jan 1970 00:00:00 GMT" |
| `DateText.DayNames` | lib/utils.c:273-281 | the names of the days as they come round |
| `DateZones.ParseFields` | lib/parse_date.cc:34-165 | a date written field by field, with or without day and seconds and with any kind of zone, is read as its fields less its zone; as 0 if the day of the month is out of range or the month or zone unknown |
| `DateZones.ZonedRoundTrip` | lib/parse_date.cc:128-163 | local time printed with "+hhmm", "-hhmm" or a zone's name is read back as the time it is |
| `DateText.ParseDateText` | lib/parse_date.cc:34-47 | parse_date on any text: 0 for nonsense, else timegm less the zone |
| `DateText.ParseDateStd` | lib/parse_date.cc:50-165 | the parser with its moving position reads what the stepwise reading of the rest of the text says, on any text |
| `DateText.SkipWsAt` | lib/parse_date.cc:168-170 | the position moves past spaces and tabs |
| `DateText.ParseWordAt` | lib/parse_date.cc:173-181 | the longest run of letters, or failure with the position unmoved |
| `DateText.ParseIntAt` | lib/parse_date.cc:184-192 | the value of the longest run of digits, or failure with the position unmoved |
| `BufferedIO.WritesAreConserved` | lib/io.c:93-143 | over any calls and any kernel, bytes on the wire followed by those waiting are the bytes accepted, in order, and at most a buffer waits |
| `BufferedIO.FlushDeliversAll` | lib/io.c:93-114 | if the last flush succeeds, the wire holds all that was accepted |
| `BufferedIO.LinesMakeUpStream` | lib/io.h:46-51 | the lines of a stream concatenate to it, a newline comes only last, and only the last line may lack it |
| `BufferedIO.SuccessiveLines` | lib/io.c:198-227 | however read(2) splits the stream, successive successful calls return its lines one after another |
| `BufferedIO.IO.Flush` | lib/io.c:93-114 | nothing is lost or repeated through short writes, EINTR, EAGAIN and errors; success leaves nothing waiting; an error is what the kernel gave last, or a time-out |
| `BufferedIO.IO.Write` | lib/io.c:120-143 | exactly a prefix of the data is accepted, all of it exactly when 0 is returned |
| `BufferedIO.IO.Fill` | lib/io.c:167-187 | success leaves something to read, end of file means that the stream is used up, no byte is lost; an error is what the kernel gave last, or a time-out, and interruptions are got over |
| `BufferedIO.IO.ReadByte` | lib/io.c:189-196 | the next byte of the stream, or the stream untouched |
| `BufferedIO.IO.Store` | lib/io.c:206-219 | doubling keeps the line read so far and always leaves room |
| `BufferedIO.IO.GetLine` | lib/io.c:198-227 | on success the buffer holds the next line with its terminator in bounds; on error the line is freed; end of file only at the end |
| `BufferedIO.IO.ReadLine` | lib/io.c:205-213 | what was taken from the stream is what is in the buffer, in every outcome |
| `NewsSources.MinuteInMap` | sources/sources.cc:317-364 | whatever numbers a line holds, mktime leaves the fields in range and the minute below 1440 |
| `NewsSources.ParsePrinted` | sources/sources.cc:317-364 | every field of a log line is read as what it stands for, the year being that of the run or, for a month still to come, the one before |
| `NewsSources.LineRoundTrip` | sources/sources.cc:317-364 | what is logged of a time within the last year is read back: time, code, peer and size; and it is counted under the hour and minute it shows |
| `NewsSources.SameFileIs` | sources/sources.cc:407-418 | lines are counted in one file exactly if they are of the same day and of peers that look the same |
| `NewsSources.LatestNeverDecreases` | sources/sources.cc:377-434 | within one process latest_time never goes back, from any line to any later one |
| `NewsSources.StampRoundTrip` | sources/sources.cc:436-462 | the timestamp that is written is the one that is read |
| `NewsSources.FewCountedTwice` | sources/sources.cc:407-462 | on a strictly increasing log, with any number of crashes and reruns, at most 32 counted lines can be counted again, and at most one after a clean exit |
| `NewsSources.NoneMissed` | sources/sources.cc:377-434 | of the lines any run has reached, exactly those not before the first timestamp have been counted |
| `NewsSources.Sources.ProcessFile` | sources/sources.cc:367-375 | a whole file moves the timestamp and the counters as its lines one after another |
| `NewsSources.Sources.ProcessLine` | sources/sources.cc:377-384 | a line is counted exactly if it is not before latest_time and is an accept or junk line |
| `NewsSources.Sources.ProcessAccepted` | sources/sources.cc:407-434 | the open map is always that of the current path, and every counter of every map is the number of lines counted under it |
| `NewsSources.Sources.AddToMap` | sources/sources.cc:424-425 | the two increments keep every counter right |
| `NewsSources.Sources.OpenMap` | sources/sources.cc:386-405 | a new map is all zeroes and an old one keeps its counters |
| `NewsSources.Sources.UpdateTimestamp` | sources/sources.cc:452-462 | the latest time is saved and the counter starts again |
| `NewsSources.Sources.ReadTimestamp` | sources/sources.cc:436-450 | a new process starts from the saved time with nothing open |
| `Csv.QuoteRoundTrip` | lib/parse_csv.cc:87-105 | a quoted string is read back whole exactly when char is unsigned or the string is 7-bit |
| `Csv.RowRoundTrip` | lib/parse_csv.cc:42-80 | a printed row of texts and numbers is read back as it was exactly when every text in it is 7-bit or char is unsigned |
| `Csv.FileRoundTrip` | lib/parse_csv.cc:30-85 | a printed file is read back row for row under exactly the same condition |
| `Csv.ReadThreeDigits` | lib/parse_csv.cc:59-66 | an escape takes exactly three octal digits, whatever follows |
| `Csv.QuoteIsVisible` | lib/parse_csv.cc:87-105 | whatever the string, what is printed is printable ASCII |
| `Csv.PlainIsKept` | lib/parse_csv.cc:98-99 | a printable string without quotes and backslashes is printed as it is |
| `Csv.NumberIsRead` | lib/parse_csv.cc:46-52 | anything that starts with a digit is an integer, the largest there is if it is too large |
| `Csv.CsvQuote` | lib/parse_csv.cc:87-105 | the printing loop |
| `Csv.ReadLine` | lib/parse_csv.cc:42-80 | the parsing loop reads what the recursive reading says, and throws exactly when that fails |
| `Csv.StringAt` | lib/parse_csv.cc:54-73 | the same for one quoted string |
| `Csv.OctalAt` | lib/parse_csv.cc:58-65 | the same for one octal escape |
| `ArticleHeaders.PrefixSuffices` | spoolstats/AllGroups.cc:120-132 | any prefix that holds a blank line parses to the same headers as the whole article |
| `ArticleHeaders.ParseRendered` | spoolstats/Article.cc:43-73 | headers written with LF or CRLF, folded or not, are read back with lower-case names |
| `ArticleHeaders.LastOneWins` | spoolstats/Article.cc:43-73 | a name is in the map exactly if it occurs, with the value of its last occurrence |
| `ArticleHeaders.NoColonIsSkipped` | spoolstats/Article.cc:57-59 | a line without a colon is passed over |
| `ArticleHeaders.TruncatedIsSkipped` | spoolstats/Article.cc:52-53 | so is a header whose end is missing |
| `ArticleHeaders.TrailingBlanksStay` | spoolstats/Article.cc:61-68 | blanks after a value are kept: the loop meant to drop them never runs |
| `ArticleHeaders.Article.ParseText` | spoolstats/Article.cc:43-95 | the loop over positions gives the headers of the text, and ends |
| `ArticleHeaders.ReadHead` | spoolstats/AllGroups.cc:119-132 | however read(2) splits the file, what has been read when the loop stops parses like the whole file |
| `ArticleProperties.UpdatesAreCounted` | spoolstats/ArticleProperty.cc:27-35 | after any updates the table holds exactly the values seen, with how often and from which senders; the total is the number of updates |
| `ArticleProperties.SummaryConserves` | spoolstats/ArticleProperty.cc:37-49 | a summary conserves the number of articles, for every summarizer and every order |
| `ArticleProperties.SummaryUnitesSenders` | spoolstats/ArticleProperty.cc:58-66 | each summary name has the union of its entries' senders |
| `ArticleProperties.SummaryAddsUp` | spoolstats/ArticleProperty.cc:58-66 | and the added-up articles and sender counts of its entries |
| `ArticleProperties.SummaryIsKeyed` | spoolstats/ArticleProperty.cc:37-49 | and is kept under its own name |
| `ArticleProperties.SummedSenderCount` | spoolstats/ArticleProperty.cc:58-66 | the added-up sender count bounds the distinct senders, and equals them exactly when no sender is in two entries |
| `ArticleProperties.LogsRestore` | spoolstats/ArticleProperty.cc:68-94 | reading a log back restores every value with its article and sender counts |
| `ArticleProperties.ArticleProperty.Update` | spoolstats/ArticleProperty.cc:27-35 | one entry gains an article and a sender, the others stay |
| `ArticleProperties.ArticleProperty.Summarize` | spoolstats/ArticleProperty.cc:37-49 | the destination gains every entry under its summary name, and total articles are conserved |
| `ArticleProperties.ArticleProperty.Logs` | spoolstats/ArticleProperty.cc:68-82 | one row per entry, each entry once; reading the file back restores every value with its counts |
| `ArticleProperties.ArticleProperty.ReadLogs` | spoolstats/ArticleProperty.cc:84-94 | the rows are inserted in order, present values kept, a value of the wrong type stops it |
| `GroupDedup.GroupCountedOnce` | spoolstats/AllGroups.cc:145-165 | an article adds exactly one to each distinct listed group of a configured hierarchy, in any order and with any repeats |
| `GroupDedup.HierarchyCount` | spoolstats/AllGroups.cc:150-174 | how often it adds to each hierarchy: 0, 1, or 2 exactly when the bare name is split off from the rest |
| `GroupDedup.HierarchyCountedOnce` | spoolstats/AllGroups.cc:150-174 | exactly once if every group name has a dot |
| `GroupDedup.CountedTwice` | spoolstats/AllGroups.cc:150-174 | "h", "h-x.y" and "h.z" count h twice when both hierarchies are configured |
| `GroupDedup.SortedIsUnique` | spoolstats/AllGroups.cc:149-149 | there is only one sorted list of the same names, so any sorting algorithm will do |
| `SpoolCount.SplitIsJoin` | lib/split.cc:26-38 | the pieces joined again are the text, and hold no separator |
| `SpoolCount.TallyTotals` | spoolstats/SenderCountingBucket.cc:25-34 | after any visits: articles are their number and the sum over senders, bytes their total, senderCount the number of distinct senders |
| `SpoolCount.TallyPerSender` | spoolstats/SenderCountingBucket.cc:25-34 | each sender's count is how often that sender was visited |
| `SpoolCount.SenderCountingBucket.Visit` | spoolstats/SenderCountingBucket.cc:25-34 | one visit adds one article, its size and one for its sender |
| `SpoolCount.RunBalances` | spoolstats/AllGroups.cc:33-37 | for every sequence of articles, total articles = distinct message IDs = sum over user agents = sum over character sets |
| `SpoolCount.RunSees` | spoolstats/AllGroups.cc:131-142 | the IDs seen are those of the valid articles in the sampling range |
| `SpoolCount.EachIdOnce` | spoolstats/AllGroups.cc:139-142 | each message ID of an eligible article is among the counted articles exactly once, as the first with that ID |
| `SpoolCount.GroupTallies` | spoolstats/AllGroups.cc:145-165 | after any run a group's bucket is that of the counted articles that list it |
| `SpoolCount.HierarchyTallies` | spoolstats/AllGroups.cc:150-174 | after any run a hierarchy's bucket is that of the counted articles that list one of its groups, each once, or twice where the bare name is split off |
| `SpoolCount.DottedCountOnce` | spoolstats/AllGroups.cc:150-174 | over dotted group names that is each article once |
| `SpoolMeaning.GroupCounters` | spoolstats/Group.cc:27-36 | after any run a group's count for a sender is the number of counted articles that list the group and are from that sender by their From header; its bytes are the sizes of those that list it |
| `SpoolMeaning.HierarchyCounters` | spoolstats/SenderCountingBucket.cc:25-34 | the same for hierarchies, each article as often as it is counted there |
| `SpoolMeaning.TotalsAndTables` | spoolstats/AllGroups.cc:33-37 | the totals are those of the counted articles, and both tables hold one sighting of each, with its sender by the From header |
| `SpoolMeaning.SeenIds` | spoolstats/AllGroups.cc:131-142 | the IDs seen are the Message-ID headers of the articles that have the three headers and a date in the sampling range |
| `SpoolMeaning.AgentIs` | spoolstats/Article.cc:97-109 | which of the three headers names the user agent |
| `SpoolCount.AllGroups.VisitGroup` | spoolstats/AllGroups.cc:164-165 | the group's object, made if it is new, gains the visit; no other object changes |
| `SpoolCount.AllGroups.VisitGroups` | spoolstats/AllGroups.cc:150-175 | the loop with its last hierarchy visits exactly the objects that the sorted list calls for |
| `SpoolCount.AllGroups.CountTotals` | spoolstats/AllGroups.cc:33-37 | the global totals and both tables gain the article |
| `SpoolCount.AllGroups.VisitArticle` | spoolstats/AllGroups.cc:131-176 | an invalid, out-of-range or repeated article changes nothing; any other moves every counter by one step of the run |
| `SpoolCount.AllGroups.VisitFile` | spoolstats/AllGroups.cc:110-176 | what is counted is what the whole file says, though only its start is read |
| `SpoolScan.WalkIsFilter` | spoolstats/AllGroups.cc:66-103 | the walk visits no more than the plain mtime filter, and the same exactly when no numbered entry with a recent article comes after an old article of a higher number |
| `SpoolScan.WalkVisitsRecent` | spoolstats/AllGroups.cc:66-103 | with files in order of age and no numbered directories, the recent articles and no others are visited, for every order of every directory |
| `SpoolScan.NumberedDirectoryIsSkipped` | spoolstats/AllGroups.cc:77-88 | a group named by a number below the mark is skipped with everything in it |
| `SpoolScan.NumberOfDigits` | spoolstats/AllGroups.cc:71-76 | a name of digits is their value, unless that does not fit a long |
| `SpoolScan.NumberOfSigned` | spoolstats/AllGroups.cc:71-76 | a sign is taken |
| `SpoolScan.NotANumber` | spoolstats/AllGroups.cc:71-76 | a name that does not end in a digit is not a number |
| `SpoolScan.NextMark` | spoolstats/AllGroups.cc:91-97 | the mark never decreases |
| `SpoolScan.Scanner.Recurse` | spoolstats/AllGroups.cc:54-107 | the recursive loop visits exactly the paths of the walk |

## Left out

- Sockets, name lookup, poll, processes, pipes, stat and directory reading: only their results are modelled, as inputs or as an oracle.
- `Nntp.Session.Post`: the AUTHINFO GENERIC helper is one opaque step after which the command is sent again; the text of a final answer and the count of unwanted articles are not modelled.
- `Gateway.AcceptedAtMostOnce`: message IDs are an injective function of the commit (one repository argument and one salt) in place of SHA-1, the server decides on an article in one step when it has it all, and one connection serves a run; the preview mode is not part of the model.
- `SeenStore.SeenFile.Remember`: the rewrite of the parent's node by pwrite happens as a whole or not at all; IDs have at most 47 bytes and no NUL; the big-endian branch of the byte-order helpers, which returns nothing, is not modelled.
- `PostQueue.StepKeepsInv`: the queue is a sequence in place of the linked list, so its pointers and their freeing are not captured; posting after join has been called, which lib/nntp.h forbids, is excluded.
- `GitLog.Header`: the header names "timestamp" and "revision-id", which only bzr logs have, change nothing.
- `GitLog.CompleteGitCommit`: one reading of the clock serves a run, and diffs and encodings are not fetched.
- `GitLog.LogRoundTrip`: the date is an unbounded integer, and the article made from an entry is not rendered.
- gateways/bzr2news.c reading bzr logs, and gateways/lj2news.c.
- `TimeAxis.TimeGraph.DefineX`: from 1900 on only, since before it the loops need not end; the axis is that of UTC, and integers are unbounded; `TimeCodes.HourCodeFitsInt` says up to when that makes no difference.
- `DateText.ParseDate`: the zone names are a parameter in place of the table of lib/Timezones.cc, and integers are unbounded where the code wraps; w3date_to_time_t is not modelled.
- `NewsSources.MinuteInMap`: mktime is timegm, that is, the time zone is UTC; the line is counted in bytes of unbounded integers.
- `NewsSources.Parse`: the parser works on what is left of the line in place of a moving position.
- `NewsSources.Sources.ProcessFile`: the lines are given; that a last line without its newline is dropped is not modelled.
- `NewsSources.FewCountedTwice`: a process dies between two lines, not within one, and the timestamp file is written as a whole.
- sources/sources.cc from line 464 on: drawing a day's graph and closing maps there.
- `BufferedIO.IO.GetLine`: that the size stays stale after an error is admitted by the contract and not repaired; memory never runs out.
- `ArticleHeaders.Article.ParseText`: header names are lower-cased in ASCII only.
- `SpoolCount.AllGroups.VisitArticle`: Article::charset is a parameter; group objects lie in one map by their full name in place of one map per hierarchy; counters are unbounded.
- `SpoolScan.Scanner.Recurse`: directories form a finite tree, a name that cannot be examined does not occur, and the counters of the progress display are not kept.
- `ArticleProperties.ArticleProperty.Logs`: the senders' names are not logged, only their number, so a restored entry has none.
- `ArticleProperties.ArticleProperty.ReadLogs`: what is in the table after a value of the wrong type has stopped it is not stated; a row of fewer than three values, which the source reads out of bounds, is refused in the same way.
- The table of AllGroups::summarize: the summarizer is any function, so its names do not matter.
- HTML and PNG output, markers, rounding for display, recoding, running of helper programs, debug output and command-line handling; `fatal` ends the run.
