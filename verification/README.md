# Verified model of urlgrabber and the chunk-stream readers

A Dafny model of the stateful parts of the `urlgrabber` 3.9.0 library vendored under `docker/k8s/`, and of the
chunk-stream readers in `case.py` and `loadbalancer.py`. `dafny verify dfyconfig.toml` checks all of it.

| module | source | what it models |
|---|---|---|
| Streams, HttpResponse | `keepalive.py` | the response object: `read`, `readline`, `readlines` over one buffer |
| GrabberFiles | `grabber.py` | the two buffered file objects |
| RangeHeaders | `byterange.py` | range tuples and Range headers |
| PlainFiles, Windows | `byterange.py` | `RangeableFileObject`, over plain files, streams without seek, and other windows |
| RangeHandlers | `byterange.py` | the `file:` and `ftp:` handlers, from header to delivered bytes |
| Pool, KeepAlive | `keepalive.py` | the three maps of the connection pool, and the handler one request at a time |
| PoolThreads | `keepalive.py` | the same pool under any number of threads, as atomic steps |
| Retrying | `grabber.py` | `URLGrabber._retry` |
| Mirrors, MirrorRuns | `mirror.py` | the failover loop, alone and with many requests sharing one master list |
| Resume | `grabber.py` | grabbing into a file, resuming a partial one, under the retry loop |
| Quoting | `grabber.py` | guess-then-quote of URL paths |
| ChunkReader, LoadBalancer | `case.py`, `loadbalancer.py` | the byte-at-a-time reader and the debounce timer |
| Progress | `progress.py` | the rolling rate and the accounting of several files |

Objects that the source updates in place are classes whose methods are proved against functions of the old state;
the properties are then proved about those functions, about runs of them, and about the state machines.
Sequences, Hex and Wrappers hold what several modules share.

## Assumptions

- A raw read returns some prefix of what is left, at most the amount asked for if that is not negative, and non-empty
  unless nothing is left or nothing was asked for; it may fail, and then consumes nothing. Local files, sockets
  behind `makefile`, and the `stream.read(n)` of the chunk readers return exactly n bytes unless the data ends.
- A server honours ranges as RFC 7233 says: a range that ends before it starts is ignored, one that starts past the
  end is refused (pycurl reports an error). An FTP server that knows REST refuses an offset past the end; one that
  does not answers 501.
- Writes to the local file are visible at once, and the file changes in no other way during a run.
- A new connection object is distinct from all earlier ones.
- A KeyboardInterrupt may end any transfer. A checkfunc does not change the file.
- Text is a sequence of characters and stands for bytes; in Quoting the characters are below 256.
- Progress rates are real numbers. Callbacks, servers, networks and clocks are parameters.

## Where the code differs from its own documentation or intent

- `close_all` ("close all open connections", keepalive.py:195) deletes from the lists it walks and passes over every
  other connection (`CloseAllCloses`, `PassedOverAt`).
- `set_ready` guards against a KeyError that an assignment cannot raise, so a removed connection gets a ready flag
  again (`ReadyKeysDiffer`); it is still never handed out (`RemovedNeverHandedOut`).
- A new connection whose first transaction fails stays in the pool and is never ready (`DoOpen`).
- `readline(limit)` can return bytes past the first newline (`LimitOverrunsLine`).
- `PyCurlFileObject.readline` ignores its limit and the buffer: after a read with a negative amount, which keeps bytes
  back, it reports the end of the file before them (`ReadLineUnbuffered`).
- `HTTPResponse.close` tests and clears `fp` without a lock. Two threads closing one response can mark its connection
  ready twice, and two requests then get it (`TwoHolders`, `TwoClosersExact`).
- `close_connection('')` walks host names instead of connections and fails (`CloseConnection`).
- An FTP server that announces the length it sends after REST makes the handler refuse `bytes=a-` past the middle of
  the file (`FtpServersAgree`).
- `_fill_buffer` drops the bytes it has fetched when a later read of the same call fails (`FillBuffer`).
- A last byte of 0 means "no limit" to a window, and `bytes=0-0` parses to (0,0): the local handler then announces a
  length of 0 and delivers the whole file (`HeaderRoundTripFailure`, `ViewIsSlice`, `LocalLengthHonest`).
- A window over the whole file, (0,''), fails in its constructor (`OpenWindow`).
- With reget on, a range that starts at 0 is fetched again from 0 and appended (`ResumeFromZeroCorrupts`); a closed
  range that is already full asks for an invalid range, and the whole remote file is appended, also when a checkfunc
  asked for the retry (`FullRangeCorrupts`). `ResumeExact` says when no run can go wrong.
- With reget on, a file that is complete already cannot be resumed: the attempt fails (`CompleteIsRefused`).
- Permanently removing a master mirror that comes before the index shifts which mirror the index names
  (`RemoveMasterShifts`).
- The chunk readers pass the whole size line to `int`, so a chunk extension raises (`ExtensionCrashes`); a negative
  size hands on the rest of the stream (`NegativeSize`), and a chunk cut off by the end of the stream is handed on like a
  whole one (`TruncatedChunk`).
- `MultiFileMeter.start` does not clear the list of meters in progress, and ends and failures of other meters count
  (`OpenFilesExact`). A failed file of size 0 makes the failed size unknown (`FailedSizeExact`).

## Model

| member | source | states |
|---|---|---|
| Streams.LineEndUnique | docker/k8s/urlgrabber-3.9.0/urlgrabber/keepalive.py:426-439 | where the first line of a stream ends is determined by "no newline before, and a newline or the end of data there" |
| Streams.FirstLineOfPrefix | docker/k8s/urlgrabber-3.9.0/urlgrabber/byterange.py:163-182 | cutting a stream short cuts its first line short and changes nothing else, so a clipped readline is a readline of clipped data |
| Streams.SplitLinesExact | docker/k8s/urlgrabber-3.9.0/urlgrabber/keepalive.py:426-451 | there is exactly one way to cut a stream into lines so that nothing is lost and every piece but the last ends in its only newline; it is what readlines returns |
| Streams.LinesUpToShortest | docker/k8s/urlgrabber-3.9.0/urlgrabber/keepalive.py:441-451 | with a size hint, readlines hands out the shortest non-empty prefix of the lines whose bytes reach the hint, or all of them |
| Streams.CutIsLine | docker/k8s/urlgrabber-3.9.0/urlgrabber/keepalive.py:435-438 | however the search loop ended, the bytes cut off the buffer are a legal readline(limit) of the whole remaining stream |
| Streams.GatherLine | docker/k8s/urlgrabber-3.9.0/urlgrabber/keepalive.py:444-450 | one more gathered line keeps the bytes, the line split and the final result of readlines as they were |
| Streams.RunConserves | docker/k8s/urlgrabber-3.9.0/urlgrabber/keepalive.py:410-451 | for every mix of read, readline and readlines calls, everything handed out followed by everything left is the original stream |
| Streams.EmptyLineIsTheEnd | docker/k8s/urlgrabber-3.9.0/urlgrabber/keepalive.py:426-439 | reading lines under any limits but 0 until one comes back empty hands out the whole stream |
| Streams.ReadLineRunSplits | docker/k8s/urlgrabber-3.9.0/urlgrabber/keepalive.py:426-439 | a run of readline() calls yields the newline split of the stream, as far as it went |
| Streams.LimitOverrunsLine | docker/k8s/urlgrabber-3.9.0/urlgrabber/keepalive.py:429-438 | readline(limit) stays within the first line if and only if the limit is not strictly between the end of that line and the end of the buffered bytes |
| Streams.LimitCanOverrun | docker/k8s/urlgrabber-3.9.0/urlgrabber/keepalive.py:426-439 | over all divisions into raw reads: readline(limit) can return bytes past the first newline if and only if the limit lies past it and before the end of the old buffer, if that holds the newline, or else before the end of one more block |
| Streams.ReachesByBytes | docker/k8s/urlgrabber-3.9.0/urlgrabber/keepalive.py:429-434 | raw reads of single bytes take the search to just before the newline |
| Streams.LimitOverrunsLineExample | docker/k8s/urlgrabber-3.9.0/urlgrabber/keepalive.py:437 | a concrete buffer on which readline(3) returns bytes past the newline |
| HttpResponse.HTTPResponse.Read | docker/k8s/urlgrabber-3.9.0/urlgrabber/keepalive.py:410-424 | read(n) returns what is buffered and, if that is less, more of the stream unless it is at its end, at most n bytes in all; read() returns all; a negative n keeps the last bytes of a non-empty buffer back; every call conserves the stream, and a failing raw read changes nothing |
| HttpResponse.HTTPResponse.ReadLine | docker/k8s/urlgrabber-3.9.0/urlgrabber/keepalive.py:426-439 | readline() returns the first line of the whole stream whatever the sizes of raw reads; readline(limit) exactly the limit, if more is buffered, and else the line as far as it is buffered; never nothing unless the limit is 0 or the stream at its end; at most a block past the line is fetched; a failure loses nothing |
| HttpResponse.HTTPResponse.ReadLines | docker/k8s/urlgrabber-3.9.0/urlgrabber/keepalive.py:441-451 | the newline split of the stream, cut at the hint; a failure loses exactly the lines gathered so far |
| GrabberFiles.GrabberFileObject.FillBuffer | docker/k8s/urlgrabber-3.9.0/urlgrabber/grabber.py:1351-1410 | fills the buffer to the amount or to the end of data, for negative amounts too, and conserves the stream; a failing read loses exactly the bytes fetched by that call, which the read counter tells |
| GrabberFiles.GrabberFileObject.Read | docker/k8s/urlgrabber-3.9.0/urlgrabber/grabber.py:1773-1847 | exactly n bytes or all that is left; for negative n all but the last -n bytes of the buffer, or of everything if it is empty; an empty buffer stays empty unless n is negative; what is handed out is the beginning of the stream |
| GrabberFiles.GrabberFileObject.ReadLine | docker/k8s/urlgrabber-3.9.0/urlgrabber/grabber.py:1420-1433 | the lines and limits of the response object's readline, in order with reads; what a failing fill loses lies between the buffer and the unread data |
| GrabberFiles.GrabberFileObject.ReadLineUnbuffered | docker/k8s/urlgrabber-3.9.0/urlgrabber/grabber.py:1849-1851 | a readline that bypasses the buffer loses and reorders nothing, and returns the next line if and only if the buffer is empty; the limit holds only if the line is that short anyway |
| GrabberFiles.CopyOut | docker/k8s/urlgrabber-3.9.0/urlgrabber/grabber.py:1304-1349 | dumping to a file writes the first high-low bytes of the stream, or all of it; whether a read or a write fails, what was written is a beginning of the stream |
| GrabberFiles.ReadIsStep | docker/k8s/urlgrabber-3.9.0/urlgrabber/grabber.py:1412-1418 | slicing a filled buffer takes exactly those bytes off the stream |
| RangeHeaders.DecimalRoundTrip | docker/k8s/urlgrabber-3.9.0/urlgrabber/byterange.py:440 | a printed number parses back to itself, for all naturals |
| RangeHeaders.DecimalCanonical | docker/k8s/urlgrabber-3.9.0/urlgrabber/byterange.py:440 | the printed form is the only numeral of a number without leading zeros |
| RangeHeaders.NormalizeIdempotent | docker/k8s/urlgrabber-3.9.0/urlgrabber/byterange.py:442-464 | normalising a normalised range changes nothing |
| RangeHeaders.NormalizeExact | docker/k8s/urlgrabber-3.9.0/urlgrabber/byterange.py:442-464 | a missing first byte means 0, a missing last one the end; fails exactly on a last byte before the first, None exactly for the whole file |
| RangeHeaders.DigitsOfConcat | docker/k8s/urlgrabber-3.9.0/urlgrabber/byterange.py:421-424 | the digit groups of the header pattern take exactly the digits, whatever follows |
| RangeHeaders.FromHeaderExact | docker/k8s/urlgrabber-3.9.0/urlgrabber/byterange.py:403-428 | the result of the parser for every spelling of every range, leading zeros and trailing text included |
| RangeHeaders.MalformedExact | docker/k8s/urlgrabber-3.9.0/urlgrabber/byterange.py:421-428 | the parser returns () if and only if the header spells no range at all |
| RangeHeaders.OddHeaders | docker/k8s/urlgrabber-3.9.0/urlgrabber/byterange.py:403-464 | an error exactly for a last byte before the first, no range exactly for bytes=0-, the odd (0,0) exactly for bytes=0-0 |
| RangeHeaders.HeaderRoundTrip | docker/k8s/urlgrabber-3.9.0/urlgrabber/byterange.py:403-464 | for every normalised range, printing and parsing returns it if and only if it is open, or non-empty and not (0,1), or (0,0), with a first byte that is not negative |
| RangeHeaders.HeaderRoundTripFailure | docker/k8s/urlgrabber-3.9.0/urlgrabber/byterange.py:425-439 | (0,1) prints as bytes=0-0 and comes back as (0,0) |
| RangeHeaders.HeaderSelectsSlice | docker/k8s/urlgrabber-3.9.0/urlgrabber/byterange.py:430-440 | the printed header of a non-empty range spells first and last-1, and these select by section 2.1 of RFC 7233 exactly the bytes of the slice |
| PlainFiles.OutputContiguous | docker/k8s/urlgrabber-3.9.0/urlgrabber/byterange.py:154-170 | any mix of reads and readlines of a file returns its bytes from the position on, in order and without gaps |
| PlainFiles.ReadOutExact | docker/k8s/urlgrabber-3.9.0/urlgrabber/byterange.py:154-161 | read(size) of a plain file: that many bytes from the position on, or what is left, or all for a negative size |
| PlainFiles.LineOutExact | docker/k8s/urlgrabber-3.9.0/urlgrabber/byterange.py:163-170 | readline(size) of a plain file: from the position on up to the first of a newline, the size, and the end |
| PlainFiles.TargetExact | docker/k8s/urlgrabber-3.9.0/urlgrabber/byterange.py:140-150 | a seek goes to the offset from start or position, but not past the clamp |
| PlainFiles.ViewIsSlice | docker/k8s/urlgrabber-3.9.0/urlgrabber/byterange.py:149-182 | a window shows the bytes first to last if and only if last is not 0, or there are no bytes |
| PlainFiles.SliceOfSlice | docker/k8s/urlgrabber-3.9.0/urlgrabber/byterange.py:104-193 | a window over a window shows one slice of the file |
| PlainFiles.ClippedRead | docker/k8s/urlgrabber-3.9.0/urlgrabber/byterange.py:154-182 | reading through the file with the clipped size gives what a plain file over the slice gives, for read and readline |
| Windows.PoorMansSeek | docker/k8s/urlgrabber-3.9.0/urlgrabber/byterange.py:195-213 | reading forward ends where a native seek would if that is inside the file; otherwise it is a range error that leaves the file at its end |
| Windows.FileRef.SeekOn | docker/k8s/urlgrabber-3.9.0/urlgrabber/byterange.py:184-193 | forward moves keep the window in step with the object below; a backward move is exactly an assertion failure; out of reach exactly a range error |
| Windows.Window.DoSeek | docker/k8s/urlgrabber-3.9.0/urlgrabber/byterange.py:184-193 | the same for the window's own position: it moves by the offset, or fails without moving |
| Windows.ReadInStep | docker/k8s/urlgrabber-3.9.0/urlgrabber/byterange.py:154-182 | a read through the object below returns the window's bytes and keeps both in step |
| Windows.WindowStep | docker/k8s/urlgrabber-3.9.0/urlgrabber/byterange.py:135-193 | an outer window that seeks an inner one, which clamps, stays in step with it, and the reach is that of the unclamped target |
| Windows.Window.Tell | docker/k8s/urlgrabber-3.9.0/urlgrabber/byterange.py:126-133 | the position of the plain file that the window behaves as |
| Windows.Window.Read | docker/k8s/urlgrabber-3.9.0/urlgrabber/byterange.py:154-161 | what a plain file over the slice returns and the position it leaves, over files with and without seek and over other windows |
| Windows.Window.ReadLine | docker/k8s/urlgrabber-3.9.0/urlgrabber/byterange.py:163-170 | the same for readline |
| Windows.Window.Seek | docker/k8s/urlgrabber-3.9.0/urlgrabber/byterange.py:135-152 | lands on the target clamped at the last byte; each of the three failures happens exactly when its condition on target and file holds; with native seek below no target is out of reach |
| Windows.ReachOverRaw | docker/k8s/urlgrabber-3.9.0/urlgrabber/byterange.py:148-152 | over a stream without seek a target is out of reach if and only if, clamped, it lies past the end of the data |
| Windows.OpenWindow | docker/k8s/urlgrabber-3.9.0/urlgrabber/byterange.py:104-116 | succeeds exactly on a valid range other than (0,'') whose first byte can be reached, with its own error for each other case, and then behaves as a plain file over the view |
| RangeHandlers.OpenLocalFile | docker/k8s/urlgrabber-3.9.0/urlgrabber/byterange.py:220-248 | the opened object delivers the body and length of the specification LocalAnswer, and fails exactly where it does |
| RangeHandlers.LocalClosedRange | docker/k8s/urlgrabber-3.9.0/urlgrabber/byterange.py:234-248 | bytes=a-b with a <= b and b >= 1, in any spelling: a range error if and only if byte b is not in the file, else that slice and its true length |
| RangeHandlers.LocalOpenRange | docker/k8s/urlgrabber-3.9.0/urlgrabber/byterange.py:234-248 | bytes=a-: a range error if and only if a is past the end, else the tail and its true length |
| RangeHandlers.LocalLengthHonest | docker/k8s/urlgrabber-3.9.0/urlgrabber/byterange.py:238-248 | the announced Content-Length is the length of the body if and only if the request is not bytes=0-0 on a non-empty file |
| RangeHandlers.LocalOddRequests | docker/k8s/urlgrabber-3.9.0/urlgrabber/byterange.py:235-248 | without a Range header or with bytes=0- the whole file and its length; an assertion failure for a header that spells no range; for bytes=0-0 the whole file with length 0 |
| RangeHandlers.LocalReversedRange | docker/k8s/urlgrabber-3.9.0/urlgrabber/byterange.py:236-242 | a range that ends before it starts is a range error |
| RangeHandlers.RetrFile | docker/k8s/urlgrabber-3.9.0/urlgrabber/byterange.py:355-395 | with or without REST on the server, the same bytes from the offset on, and the same failures; the length is the one announced for the transfer made |
| RangeHandlers.FtpOpen | docker/k8s/urlgrabber-3.9.0/urlgrabber/byterange.py:307-342 | REST support matters to the object returned, and to whether one is, only through the announced length |
| RangeHandlers.FtpOpenRange | docker/k8s/urlgrabber-3.9.0/urlgrabber/byterange.py:316-331 | the same for a parsed range: two nested windows over a plain transfer deliver what one over a restarted transfer does |
| RangeHandlers.FtpClosedRange | docker/k8s/urlgrabber-3.9.0/urlgrabber/byterange.py:307-331 | bytes=a-b with b >= 1 delivers exactly that slice, clamped at its end, and fails if and only if a is past the end |
| RangeHandlers.FtpTail | docker/k8s/urlgrabber-3.9.0/urlgrabber/byterange.py:319-328 | bytes=a- with a > 0 delivers the tail if and only if a is not past the end and the server announced a length that reaches it |
| RangeHandlers.FtpOddRequests | docker/k8s/urlgrabber-3.9.0/urlgrabber/byterange.py:309-331 | without a Range header, or with bytes=0- or bytes=0-0, the whole file; nothing for a header that spells no range |
| RangeHandlers.FtpReversedRange | docker/k8s/urlgrabber-3.9.0/urlgrabber/byterange.py:309-331 | nothing for a range that ends before it starts |
| RangeHandlers.FtpServersAgree | docker/k8s/urlgrabber-3.9.0/urlgrabber/byterange.py:316-331 | any two servers give the same answer to a closed range, and to bytes=a- if they announce the same length; one that announces only what it sends after REST is refused if and only if a lies past the middle of the file |
| Pool.AddAgrees | docker/k8s/urlgrabber-3.9.0/urlgrabber/keepalive.py:128-136 | adding a connection that is not pooled keeps the three maps in agreement |
| Pool.RemoveAgrees | docker/k8s/urlgrabber-3.9.0/urlgrabber/keepalive.py:138-151 | removing keeps agreement, removes that connection only, and only from its host's list |
| Pool.ReadyKeysDiffer | docker/k8s/urlgrabber-3.9.0/urlgrabber/keepalive.py:153-155 | after set_ready the ready flags and the pooled connections have the same keys if and only if the connection was pooled |
| Pool.MapsChanged | docker/k8s/urlgrabber-3.9.0/urlgrabber/keepalive.py:128-155 | what add, remove and set_ready do to each of the three maps: appended at the end, only the one occurrence deleted, the host deleted with its last connection |
| Pool.ReadyOfMembers | docker/k8s/urlgrabber-3.9.0/urlgrabber/keepalive.py:157-169 | the connections that can be handed out are exactly the listed ones whose flag is set |
| Pool.FirstReady | docker/k8s/urlgrabber-3.9.0/urlgrabber/keepalive.py:161-166 | the connection handed out is ready and none before it in the host's list is; there is none if and only if none is ready |
| Pool.ReadyOfDropFirst | docker/k8s/urlgrabber-3.9.0/urlgrabber/keepalive.py:157-169 | dropping the first ready connection of a host leaves the other ready ones in order |
| Pool.ConnectionManager.Add | docker/k8s/urlgrabber-3.9.0/urlgrabber/keepalive.py:128-136 | the new maps in full |
| Pool.ConnectionManager.Remove | docker/k8s/urlgrabber-3.9.0/urlgrabber/keepalive.py:138-151 | the new maps in full; an emptied host disappears; an unknown connection changes nothing |
| Pool.ConnectionManager.SetReady | docker/k8s/urlgrabber-3.9.0/urlgrabber/keepalive.py:153-155 | only the flag changes, pooled or not |
| Pool.ConnectionManager.GetReadyConn | docker/k8s/urlgrabber-3.9.0/urlgrabber/keepalive.py:157-169 | the first ready connection in pool order, marked in use; none exactly when none is ready |
| Pool.ConnectionManager.GetAll | docker/k8s/urlgrabber-3.9.0/urlgrabber/keepalive.py:171-175 | the host's connections, none for an unknown host; all hosts for an empty host name |
| KeepAlive.KeepAliveHandler.DoOpen | docker/k8s/urlgrabber-3.9.0/urlgrabber/keepalive.py:212-304 | ends; discards stale ready connections in pool order up to the first that is not; makes a new one only when none is left; one that answers stays pooled, in use, if and only if the server will not close it; one that fails unexpectedly goes; all others keep host, flag and place |
| KeepAlive.OpenChanges | docker/k8s/urlgrabber-3.9.0/urlgrabber/keepalive.py:212-304 | for every connection and host list, what do_open leaves of it |
| KeepAlive.OpenMeans | docker/k8s/urlgrabber-3.9.0/urlgrabber/keepalive.py:212-304 | the fate of the connection that answers or fails, and which error comes out |
| KeepAlive.RemovedAllChanges | docker/k8s/urlgrabber-3.9.0/urlgrabber/keepalive.py:138-151 | removing connections takes out exactly those, and leaves the others their host, flag and place |
| KeepAlive.DiscardFirstReady | docker/k8s/urlgrabber-3.9.0/urlgrabber/keepalive.py:226-230 | discarding a handed-out stale connection leaves the remaining ready ones, so the retry loop strictly decreases |
| KeepAlive.RemovedAllMembers | docker/k8s/urlgrabber-3.9.0/urlgrabber/keepalive.py:138-151 | removing a list of connections removes exactly those, and leaves untouched the lists of hosts without any of them |
| KeepAlive.KeepAliveHandler.CloseConnection | docker/k8s/urlgrabber-3.9.0/urlgrabber/keepalive.py:187-193 | every connection of the host is closed and removed, no other host is touched; an empty host name removes nothing, and fails if and only if the pool is not empty |
| KeepAlive.RemovedHost | docker/k8s/urlgrabber-3.9.0/urlgrabber/keepalive.py:187-193 | after removing all its connections a host is gone and the other lists are as before |
| KeepAlive.KeepAliveHandler.CloseAll | docker/k8s/urlgrabber-3.9.0/urlgrabber/keepalive.py:195-200 | every host list becomes what a walk leaves that deletes under its own feet |
| KeepAlive.KeepAliveHandler.CloseWalking | docker/k8s/urlgrabber-3.9.0/urlgrabber/keepalive.py:198-200 | the same for one host, all others untouched |
| KeepAlive.PassedOverExact | docker/k8s/urlgrabber-3.9.0/urlgrabber/keepalive.py:198-200 | such a walk over n connections leaves n/2 of them |
| KeepAlive.PassedOverAt | docker/k8s/urlgrabber-3.9.0/urlgrabber/keepalive.py:198-200 | and these are every other one, in order |
| KeepAlive.CloseAllCloses | docker/k8s/urlgrabber-3.9.0/urlgrabber/keepalive.py:195-200 | close_all empties the pool if and only if no host has more than one connection |
| PoolThreads.StepInv | docker/k8s/urlgrabber-3.9.0/urlgrabber/keepalive.py:128-240 | every atomic step of every thread keeps map agreement and the record of removed connections; if it is not a second close of a response with a pooled connection, exclusive use too |
| PoolThreads.StepChanges | docker/k8s/urlgrabber-3.9.0/urlgrabber/keepalive.py:128-249 | what each step does to the pool: discarding, crashing and dropping take out their connection and nothing else, creating adds one, taking and closing set one flag, the rest changes nothing |
| PoolThreads.TakeInv | docker/k8s/urlgrabber-3.9.0/urlgrabber/keepalive.py:157-169 | a connection that is handed out had no holder and was never removed |
| PoolThreads.RemoveConnInv | docker/k8s/urlgrabber-3.9.0/urlgrabber/keepalive.py:138-151 | removing a connection keeps the invariant whoever holds it |
| PoolThreads.ReadyInv | docker/k8s/urlgrabber-3.9.0/urlgrabber/keepalive.py:153-155 | the unlocked set_ready keeps the invariant on a connection without a holder, or one removed meanwhile |
| PoolThreads.EndCloseInv | docker/k8s/urlgrabber-3.9.0/urlgrabber/keepalive.py:392-398 | a closing response gives its connection back safely |
| PoolThreads.RunConsistent | docker/k8s/urlgrabber-3.9.0/urlgrabber/keepalive.py:128-240 | in every run, double closes included, the maps agree and connections are never recycled |
| PoolThreads.RunInv | docker/k8s/urlgrabber-3.9.0/urlgrabber/keepalive.py:128-240 | in every reachable state of any number of threads no connection has two holders and a ready pooled connection has none, unless two threads have been inside the close of one response with a pooled connection |
| PoolThreads.RemovedStays | docker/k8s/urlgrabber-3.9.0/urlgrabber/keepalive.py:138-169 | removed connections stay removed along every run |
| PoolThreads.RemovedNeverHandedOut | docker/k8s/urlgrabber-3.9.0/urlgrabber/keepalive.py:138-169 | a connection taken out of the pool is never handed out again, whatever set_ready does later |
| PoolThreads.ManagerChoiceIsStep | docker/k8s/urlgrabber-3.9.0/urlgrabber/keepalive.py:157-169 | what get_ready_conn does when it runs undisturbed is one of the steps of the thread model |
| PoolThreads.DiscardRun | docker/k8s/urlgrabber-3.9.0/urlgrabber/keepalive.py:226-230 | taking, finding stale and discarding the first k ready connections is a run of these steps that leaves the pool without exactly those |
| PoolThreads.DoOpenIsRun | docker/k8s/urlgrabber-3.9.0/urlgrabber/keepalive.py:212-304 | an undisturbed do_open is a run of these steps, whatever its transactions do, and ends in the pool and with the response that the handler's contract gives |
| PoolThreads.TwoClosersExact | docker/k8s/urlgrabber-3.9.0/urlgrabber/keepalive.py:392-398 | once pending closes are done, exclusive use survives every continuation without new closes if and only if no response with a pooled connection has two threads inside its close |
| PoolThreads.DoubleCloseBreaks | docker/k8s/urlgrabber-3.9.0/urlgrabber/keepalive.py:392-398 | the continuation that breaks it: the second set_ready comes after the connection was handed out again |
| PoolThreads.TwoHolders | docker/k8s/urlgrabber-3.9.0/urlgrabber/keepalive.py:392-398 | a run from the empty pool after which two requests hold the same connection |
| Retrying.Retry | docker/k8s/urlgrabber-3.9.0/urlgrabber/grabber.py:895-940 | ends at the first attempt that is not tried again: success, an exception not caught, a callback that raises, the last try, or a code not in retrycodes; returns or raises exactly what that one did, and never makes more than N tries for retry=N >= 1, or 1 without retry |
| Retrying.StopUnique | docker/k8s/urlgrabber-3.9.0/urlgrabber/grabber.py:895-940 | there is at most one such attempt |
| Retrying.TriesBound | docker/k8s/urlgrabber-3.9.0/urlgrabber/grabber.py:933-940 | retry=N >= 1 or None makes at most N or 1 attempts, and that many when all fail in a retryable way |
| Retrying.UnboundedRetry | docker/k8s/urlgrabber-3.9.0/urlgrabber/grabber.py:906-940 | with a retry count that is not positive the loop runs forever if and only if every attempt is interrupted or fails with a code in retrycodes and no callback raises |
| Retrying.RetriedIs | docker/k8s/urlgrabber-3.9.0/urlgrabber/grabber.py:895-940 | the loop's result as a function of the attempts |
| Mirrors.MirrorGroup.LoadGr | docker/k8s/urlgrabber-3.9.0/urlgrabber/mirror.py:273-279 | the request gets a copy of the master list and index |
| Mirrors.MirrorGroup.GetMirror | docker/k8s/urlgrabber-3.9.0/urlgrabber/mirror.py:281-287 | the mirror at the index, or error 256 exactly when the list is empty |
| Mirrors.MirrorGroup.IncrementMirror | docker/k8s/urlgrabber-3.9.0/urlgrabber/mirror.py:337-350 | both lists and both indices after a failure report, for every action: the request loses the mirror unless remove is off, and then moves on unless increment is; the master list keeps it unless remove_master is on, and its index moves on if it was there, unless increment_master is off |
| Mirrors.ReportedInRange | docker/k8s/urlgrabber-3.9.0/urlgrabber/mirror.py:339-350 | the master index stays in range under every report |
| Mirrors.DoubleReport | docker/k8s/urlgrabber-3.9.0/urlgrabber/mirror.py:339-350 | without remove_master, reporting the same mirror twice in a row is the same as once |
| Mirrors.RemoveMasterShifts | docker/k8s/urlgrabber-3.9.0/urlgrabber/mirror.py:345-349 | removing a master mirror keeps the index on the same mirror if and only if the removed one comes later, or is the first of two while the second is in use |
| Mirrors.MirrorGroup.MirrorTry | docker/k8s/urlgrabber-3.9.0/urlgrabber/mirror.py:377-405 | the loop runs as the round-by-round specification says: which mirrors it tries, its result, raising callbacks of grabber and group included, the master state it leaves, at most retry fetches a round |
| Mirrors.RoundOver | docker/k8s/urlgrabber-3.9.0/urlgrabber/mirror.py:388-405 | one round ends the loop with the fetched result or what the callback raises, or the loop goes on |
| Mirrors.GrabFrom | docker/k8s/urlgrabber-3.9.0/urlgrabber/mirror.py:395-397 | one round is the grabber's own retry loop on one mirror |
| MirrorRuns.RingAtRotates | docker/k8s/urlgrabber-3.9.0/urlgrabber/mirror.py:337-356 | with remove on, after k failures the private list is the snapshot's rotation without its first k |
| MirrorRuns.EndsInTime | docker/k8s/urlgrabber-3.9.0/urlgrabber/mirror.py:377-405 | with remove on, the loop is over after one round per mirror at the latest, whatever fails |
| MirrorRuns.FailoverOrder | docker/k8s/urlgrabber-3.9.0/urlgrabber/mirror.py:377-405 | with remove on, mirrors are tried in cyclic order from the snapshot index, each position at most once; all but the last failed with a failure that was not final; 256 is raised exactly if all n did, and otherwise the last one decides |
| MirrorRuns.FirstSuccessWins | docker/k8s/urlgrabber-3.9.0/urlgrabber/mirror.py:377-405 | with fail off and a group callback that returns, the first result that is not a URLGrabError is the request's; a URLGrabError comes out if and only if all n mirrors failed, and is 256 |
| MirrorRuns.Precedence | docker/k8s/urlgrabber-3.9.0/urlgrabber/mirror.py:308-311 | of two settings of one key the callback's beats the request's, and that the group's |
| MirrorRuns.DocumentedPrecedence | docker/k8s/urlgrabber-3.9.0/urlgrabber/mirror.py:160-178 | the documented example of keys set in all three places has the documented net result |
| MirrorRuns.DefaultsApply | docker/k8s/urlgrabber-3.9.0/urlgrabber/mirror.py:345-355 | where nobody sets remove, fail, or the master's keys, mirrors are removed, failures are not final, and the master list moves on |
| MirrorRuns.GrabByDefault | docker/k8s/urlgrabber-3.9.0/urlgrabber/mirror.py:377-405 | an unconfigured group from end to end: cyclic order, each mirror once, up to the first that does not fail, 256 after n failures, at most n*N fetches, the master list kept and its index moved on by the number of failures |
| MirrorRuns.FailEnds | docker/k8s/urlgrabber-3.9.0/urlgrabber/mirror.py:313 | with fail on, the first mirror's own error comes out after it has been reported to the master list |
| MirrorRuns.RaisingCallbackFailsOver | docker/k8s/urlgrabber-3.9.0/urlgrabber/grabber.py:917-931 | a grabber callback that raises ends the mirror's retries with that exception, and the group fails over if and only if it is a URLGrabError |
| MirrorRuns.AbortsTryAll | docker/k8s/urlgrabber-3.9.0/urlgrabber/grabber.py:309-322 | a user who aborts every fetch with a URLGrabError gets through all n mirrors and then 256 |
| MirrorRuns.RaisingEnds | docker/k8s/urlgrabber-3.9.0/urlgrabber/mirror.py:294-312 | a group callback that raises ends the request after one mirror with what it raised, and leaves the master list untouched |
| MirrorRuns.ReraiseEnds | docker/k8s/urlgrabber-3.9.0/urlgrabber/mirror.py:202-313 | a group callback that raises what it is given passes the first mirror's error on |
| MirrorRuns.FetchBound | docker/k8s/urlgrabber-3.9.0/urlgrabber/mirror.py:377-405 | a request over n mirrors with retry=N costs at most n*N fetches |
| MirrorRuns.EndlessWithoutRemove | docker/k8s/urlgrabber-3.9.0/urlgrabber/mirror.py:335-356 | with remove off and nothing but failures no round ever ends the loop |
| MirrorRuns.MasterAdvances | docker/k8s/urlgrabber-3.9.0/urlgrabber/mirror.py:337-350 | alone, with distinct mirrors and default actions, k failures leave the master list as it is with index (start + k) mod n |
| MirrorRuns.GroupStep | docker/k8s/urlgrabber-3.9.0/urlgrabber/mirror.py:273-356 | every step of interleaved requests, the locked report and the private move apart, keeps all lists subsequences of the initial one and all indices in range |
| MirrorRuns.IncrementIsTwoSteps | docker/k8s/urlgrabber-3.9.0/urlgrabber/mirror.py:337-356 | the report followed by the move is what increment_mirror does |
| MirrorRuns.GroupRunInv | docker/k8s/urlgrabber-3.9.0/urlgrabber/mirror.py:273-356 | so in every reachable state, for arbitrary actions |
| MirrorRuns.ConcurrentFailuresCountOnce | docker/k8s/urlgrabber-3.9.0/urlgrabber/mirror.py:337-350 | two requests that fail on the same mirror move the master list on once |
| Resume.PyCurlFileObject.BuildRange | docker/k8s/urlgrabber-3.9.0/urlgrabber/grabber.py:1632-1661 | the requested range, the append mode and the initial byte count |
| Resume.PyCurlFileObject.Retrieve | docker/k8s/urlgrabber-3.9.0/urlgrabber/grabber.py:1488-1490 | a block is appended to the file and counted |
| Resume.PyCurlFileObject.DoGrab | docker/k8s/urlgrabber-3.9.0/urlgrabber/grabber.py:1723-1771 | the file and outcome of one attempt for every division into blocks, every error, interrupt and failing open; the byte count equals the file's size |
| Resume.AttemptOutcome | docker/k8s/urlgrabber-3.9.0/urlgrabber/grabber.py:1723-1771 | an attempt succeeds if and only if the file opens, the server replies, all of the reply comes and the transfer completes; exactly when it ends in an interrupt, in error 16, and in error 14 |
| Resume.ServeSelects | docker/k8s/urlgrabber-3.9.0/urlgrabber/grabber.py:1658-1661 | the server assumed here sends exactly the bytes that section 2.1 of RFC 7233 selects |
| Resume.AskedIsPrinted | docker/k8s/urlgrabber-3.9.0/urlgrabber/grabber.py:1658-1661 | the range the server sees is the one that the header printer spells |
| Resume.SafeContinues | docker/k8s/urlgrabber-3.9.0/urlgrabber/grabber.py:1654-1661 | from a safe state, file plus full reply is exactly the bytes wanted |
| Resume.SafeAttempt | docker/k8s/urlgrabber-3.9.0/urlgrabber/grabber.py:1632-1771 | from a safe state one attempt, however broken, leaves a prefix of the bytes wanted, and all of them if it succeeds |
| Resume.UnsafeOvershoots | docker/k8s/urlgrabber-3.9.0/urlgrabber/grabber.py:1654-1661 | from any other state a full delivery makes the file longer than the bytes wanted |
| Resume.FullOvershoots | docker/k8s/urlgrabber-3.9.0/urlgrabber/grabber.py:1654-1661 | so an attempt that gets everything it asks for reports success on too long a file |
| Resume.FullCompletes | docker/k8s/urlgrabber-3.9.0/urlgrabber/grabber.py:1654-1661 | from a safe state with bytes left to fetch, an attempt that gets everything succeeds with exactly the bytes wanted |
| Resume.CompleteIsRefused | docker/k8s/urlgrabber-3.9.0/urlgrabber/grabber.py:1645-1651 | resuming a file that is complete ends in error 14 and leaves it as it is |
| Resume.OverlongFails | docker/k8s/urlgrabber-3.9.0/urlgrabber/grabber.py:1654-1661 | a file longer than its range makes the request an invalid range, which nothing catches |
| Resume.AttemptKeepsPrefix | docker/k8s/urlgrabber-3.9.0/urlgrabber/grabber.py:1632-1771 | an attempt keeps the prefix property whatever it meets if and only if it starts safe, or the remote file is empty |
| Resume.InterruptedStaysSafe | docker/k8s/urlgrabber-3.9.0/urlgrabber/grabber.py:1632-1661 | an attempt leaves a safe state if and only if it spoils no range to be resumed: no byte of one from 0 arrived, and not the whole of one that ends within the content |
| Resume.UrlGrab | docker/k8s/urlgrabber-3.9.0/urlgrabber/grabber.py:956-1010 | the retry loop around attempts on one file: success only if the grab was whole and the checkfunc passed it; the checkfunc's error, the grab's, or what the callback raises comes out otherwise, and only on the last try or with a code not in retrycodes; under the checkable condition RunsSafe the file is a prefix of the bytes wanted, and exactly those on success |
| Resume.UnspoiltRun | docker/k8s/urlgrabber-3.9.0/urlgrabber/grabber.py:895-1010 | a run from a safe prefix stays one, and succeeds only with all bytes wanted, as long as no attempt before the last spoils the range |
| Resume.ResumeSafety | docker/k8s/urlgrabber-3.9.0/urlgrabber/grabber.py:895-1010 | in every run of the loop that starts with RunsSafe, the file is a prefix of the bytes wanted after every attempt and equals them after one that succeeds |
| Resume.ResumeExact | docker/k8s/urlgrabber-3.9.0/urlgrabber/grabber.py:895-1010 | both hold of all runs the loop can make if and only if RunsSafe does: remote file empty, or a safe start and either no retry or no closed range under reget that starts at 0 or ends within the content |
| Resume.UnsafeRun | docker/k8s/urlgrabber-3.9.0/urlgrabber/grabber.py:895-1010 | otherwise the run that succeeds on too long a file |
| Resume.ResumeFromZeroCorrupts | docker/k8s/urlgrabber-3.9.0/urlgrabber/grabber.py:1656 | resuming the range (0,4) of "abcdef" after two bytes reports success on a file holding "ababcd" |
| Resume.FullRangeCorrupts | docker/k8s/urlgrabber-3.9.0/urlgrabber/grabber.py:1654-1661 | retrying the range (2,4) of "abcdef" after both bytes have come, for whatever reason, reports success on "cdabcdef" |
| Quoting.QuoteRoundTrip | docker/k8s/urlgrabber-3.9.0/urlgrabber/grabber.py:747-757 | unquoting a quoted path gives the path, for all bytes |
| Quoting.QuotedChars | docker/k8s/urlgrabber-3.9.0/urlgrabber/grabber.py:756 | letters, digits, underscore, dot, hyphen and slash are left alone, any other byte becomes % and two upper-case hex digits |
| Quoting.SegmentsStay | docker/k8s/urlgrabber-3.9.0/urlgrabber/grabber.py:756 | the segments of a path are quoted one by one, the slashes between them stay |
| Quoting.GuessShouldQuote | docker/k8s/urlgrabber-3.9.0/urlgrabber/grabber.py:760-784 | 0 if and only if the path has no space, some %, and only %XX escapes |
| Quoting.QuoteStep | docker/k8s/urlgrabber-3.9.0/urlgrabber/grabber.py:715-718 | the guess-then-quote step as a function of the path |
| Quoting.QuoteIsClean | docker/k8s/urlgrabber-3.9.0/urlgrabber/grabber.py:747-757 | a quoted path has no space and only well-formed escapes (section 2.1 of RFC 3986), and a % exactly when something needed quoting |
| Quoting.QuoteStable | docker/k8s/urlgrabber-3.9.0/urlgrabber/grabber.py:715-718 | guessing and quoting twice is the same as once, and its result is clean |
| Quoting.BlindQuoteStable | docker/k8s/urlgrabber-3.9.0/urlgrabber/grabber.py:717-718 | quoting without the guess is stable if and only if nothing needs quoting |
| Quoting.GuessPreservesText | docker/k8s/urlgrabber-3.9.0/urlgrabber/grabber.py:715-784 | the step keeps the text of the path if and only if the path does not look quoted |
| ChunkReader.WatchEvents | tools/k8s-performance/case.py:57-79 | the loop hands on, and dies, as the round function says |
| ChunkReader.RoundsAdd | tools/k8s-performance/case.py:61-79 | runs of the loop compose |
| ChunkReader.QueueGrows | tools/k8s-performance/case.py:77 | what has been handed on stays handed on |
| ChunkReader.SizeParsed | tools/k8s-performance/case.py:63-68 | a line of hexadecimal digits in either case is read as its value |
| ChunkReader.ChunkRead | tools/k8s-performance/case.py:61-79 | one chunk, whatever its bytes, is handed on whole and leaves the reader between chunks |
| ChunkReader.ChunksRead | tools/k8s-performance/case.py:61-79 | a list of chunks is handed on in order from any idle state, whatever follows in the stream |
| ChunkReader.FramingRoundTrip | tools/k8s-performance/case.py:57-79 | framing any list of byte strings (section 4.1 of RFC 7230), in any spelling of the lengths, and reading it yields a prefix of the list at any time and exactly the list in the end |
| ChunkReader.Drained | tools/k8s-performance/case.py:72-73 | after the end of the stream nothing more is handed on |
| ChunkReader.ExtensionCrashes | tools/k8s-performance/case.py:63-68 | a chunk with an extension ends the reader with an exception after all chunks before it were handed on |
| ChunkReader.TruncatedChunk | tools/k8s-performance/case.py:72-79 | a stream that ends inside a chunk: what there is of it is handed on like a whole chunk, and nothing after it |
| ChunkReader.IntSpellings | tools/k8s-performance/case.py:67 | a size may also carry a sign, 0x, or a blank |
| ChunkReader.NegativeSize | tools/k8s-performance/case.py:67-79 | a negative size hands on the whole rest of the stream, -1 is skipped |
| LoadBalancer.Debounce | docker/haproxy/1.0.0/loadbalancer.py:127-149 | the cancel-and-restart timer reloads at the times of the specification |
| LoadBalancer.ReloadsExact | docker/haproxy/1.0.0/loadbalancer.py:145-149 | a reload happens at a time if and only if a message came 0.5 s before it and none in between |
| LoadBalancer.ReloadsApart | docker/haproxy/1.0.0/loadbalancer.py:145-149 | reloads come in order and at least 0.5 s apart |
| LoadBalancer.EveryMessageReloads | docker/haproxy/1.0.0/loadbalancer.py:145-149 | every message is followed by a reload at least 0.5 s later |
| LoadBalancer.PendingExact | docker/haproxy/1.0.0/loadbalancer.py:145-149 | the same from any state of the timer |
| Progress.RateEstimator.Start | docker/k8s/urlgrabber-3.9.0/urlgrabber/progress.py:558-564 | resets the estimate |
| Progress.RateEstimator.Update | docker/k8s/urlgrabber-3.9.0/urlgrabber/progress.py:566-583 | the new estimate: a reset at amount 0, only the amount taken over on the first update after one, else a rolling step over the time since the last |
| Progress.RateBound | docker/k8s/urlgrabber-3.9.0/urlgrabber/progress.py:566-637 | with a clock that never runs backwards and a positive timescale, the average is set if and only if some rate was folded in since the last reset, and then lies between any bounds of those rates |
| Progress.AverageBetween | docker/k8s/urlgrabber-3.9.0/urlgrabber/progress.py:610-637 | one rolling step stays between the recent rate and the old average |
| Progress.AverageWeights | docker/k8s/urlgrabber-3.9.0/urlgrabber/progress.py:610-637 | after a full timescale only the recent rate counts; before, the recent and the old rate count for their shares of the timescale |
| Progress.MultiFileMeter.NewMeter | docker/k8s/urlgrabber-3.9.0/urlgrabber/progress.py:384-387 | a meter not made before is listed |
| Progress.MultiFileMeter.RemoveMeter | docker/k8s/urlgrabber-3.9.0/urlgrabber/progress.py:389-390 | the meter is listed no more, even if in progress; an unlisted one is refused |
| Progress.MultiFileMeter.Start | docker/k8s/urlgrabber-3.9.0/urlgrabber/progress.py:355-366 | the counters restart, the lists stay |
| Progress.MultiFileMeter.BeginMeter | docker/k8s/urlgrabber-3.9.0/urlgrabber/progress.py:113-127 | a meter gets its size and the amount 0 |
| Progress.MultiFileMeter.SetAmount | docker/k8s/urlgrabber-3.9.0/urlgrabber/progress.py:134-151 | a meter gets a new amount |
| Progress.MultiFileMeter.StartMeter | docker/k8s/urlgrabber-3.9.0/urlgrabber/progress.py:394-404 | a listed meter enters once; an orphan is refused |
| Progress.MultiFileMeter.EndMeter | docker/k8s/urlgrabber-3.9.0/urlgrabber/progress.py:421-433 | the new state in full; ending a meter in progress leaves the total read unchanged |
| Progress.MultiFileMeter.FailureMeter | docker/k8s/urlgrabber-3.9.0/urlgrabber/progress.py:438-453 | the new state in full, failed_size included; the bytes of a meter in progress leave the total and are not counted as finished |
| Progress.MultiFileMeter.AmountRead | docker/k8s/urlgrabber-3.9.0/urlgrabber/progress.py:463-467 | finished bytes plus those of the meters in progress |
| Progress.GroupSound | docker/k8s/urlgrabber-3.9.0/urlgrabber/progress.py:384-453 | in every run each meter is listed once and in progress once |
| Progress.CountersAddUp | docker/k8s/urlgrabber-3.9.0/urlgrabber/progress.py:355-453 | in every run open + finished + failed is the number of meters entered since the group was started, and open is the number in progress less the meters left over at that start and the stray ends and failures since |
| Progress.OpenFilesExact | docker/k8s/urlgrabber-3.9.0/urlgrabber/progress.py:355-453 | open_files is the number of meters in progress if and only if none was in progress at the last start and every end and failure since hit a meter in progress |
| Progress.FailedSizeExact | docker/k8s/urlgrabber-3.9.0/urlgrabber/progress.py:438-451 | failed_size is known if and only if every file that failed had a known size, not 0, and is then their sum |
| Progress.TotalStep | docker/k8s/urlgrabber-3.9.0/urlgrabber/progress.py:421-467 | the bytes read change only by what a meter in progress reads or starts over with, what one entering brings, what a failing one had, and what a stray end adds; a proper end changes nothing |
| Progress.TotalAddsUp | docker/k8s/urlgrabber-3.9.0/urlgrabber/progress.py:421-467 | in every run the bytes read are the sum of these changes |
| Progress.SumRemove | docker/k8s/urlgrabber-3.9.0/urlgrabber/progress.py:426-430 | taking a meter off the list takes exactly its amount off the sum |

The functions that the contracts refer to are the specifications: `StreamStep`, `SplitLines` and `LinesUpTo` for
streams, `ReadOut`, `LineOut` and `Target` for plain files, `Normalize`, `HeaderOf`, `FromHeader` and `Slice` for
ranges, `Added`, `Removed`, `WithReady` and `ReadyList` for the pool, `After` for retrying, `Reported`, `MovedOn`,
`RingAt` and `MasterAt` for mirrors, `Attempted`, `AttemptAt` and `FileAt` for resuming, `Round` and `Rounds` for
the chunk readers, `Reloads` for the timer, `Updated` and `RollingAverage` for rates, `Applied` and `GroupAt` for
meters.

## Left out

- Retrying.Retry: returns only for runs that end (the ghost argument is an attempt that ends it); `UnboundedRetry` says which runs do not.
- Mirrors.MirrorGroup.MirrorTry: the same, for a round that ends the loop (`EndsInTime` supplies one when remove is on); grabbers whose own retry loop may be endless, and per-mirror grabbers and keyword arguments, are not modelled.
- MirrorRuns.MasterAdvances: an empty master list, where every request fails at once and the index stays 0, is covered by `GetMirror` and not by this lemma.
- KeepAlive.KeepAliveHandler.DoOpen: what decides that a reused connection is bad (socket error, HTTP/0.9 answer) is a parameter; a connection is a number and closing its socket has no effect on the maps.
- Resume.ResumeSafety: ranges with a negative first byte, and modification times, are not modelled.
- Resume.PyCurlFileObject.DoGrab: grabbing into memory or a temporary file, and the progress object, are not modelled.
- GrabberFiles.CopyOut: errors on opening the local file and modification times are not modelled; a range whose end is missing counts as no known amount.
- RangeHeaders.FromHeaderExact: says nothing about headers that do not match the pattern; `MalformedExact` does.
- RangeHandlers.FtpOpen: directory listings, and the TYPE and NLST commands.
- Quoting.QuoteStep: only the path component, which is the only one that is quoted; prefixes and file names without a scheme.
- LoadBalancer.Debounce: message times are given, the reload itself takes no time, and a timer due at the time of a message fires first.
- Progress.MultiFileMeter.StartMeter: the displays, locks and update periods of the meters are not modelled.
- String elements of range tuples other than the digits of a header.
- `processEvents` (a countdown), check_timestamp reget, `ObjectCache`, option delegation, deprecated wrappers, self tests.
- The two other copies of urlgrabber in the repository, which have the same logic.
- Sockets, pycurl, SSL, FTP control commands, throttling, timeouts, text meters, template rendering, and all other scripts and servlets of the repository.
