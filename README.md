# Chunked file sending in the file-sharing client

The client lets a user pick files, asks the relay for a session code, and
streams each file to the relay as a series of `send-file-chunk` messages,
each carrying a window of at most 512 KiB (`CHUNK_SIZE`) of the file, sent
Base64-encoded. A receiver types a code, asks for the files
and collects what the relay delivers. This project models that client logic
and proves what it emits:

- `Chunking` (chunking.dfy): the window arithmetic. `TotalChunks` is the
  ceiling division `Math.ceil(size / CHUNK_SIZE)`, `Window` is the slice read
  for chunk `k`, `FileChunks` is the stream of chunk records one
  `sendFileChunks` run emits, and `SessionChunks` is the stream a whole
  selection produces. The lemmas prove that the windows tile the file, that
  the payloads reassemble to the file's bytes, that chunk indices run
  0..totalChunks-1, that the header fields are constant within a file, that
  (fileIndex, chunkIndex) strictly increases across a send, and the
  empty-file edge case.
- `Selection` (selection.dfy): appending picked files and deleting the file
  at a position, as pure functions on sequences.
- `Progress` (progress.dfy): the sender's progress formula as written and as
  evidently intended (see Findings).
- `Client` (client.dfy): the component's state as a class `App`, the socket
  as a `Socket` object whose `log` records every emitted message, and the
  handlers. `SendFileChunks` is the callback chain of `sendFileChunks` written
  as a `while` loop (read, emit, advance, stop when the counter reaches
  `totalChunks`), proved to append exactly `FileChunks(...)` to the log.
  `OnSessionCreated` is the `for` loop of `handleSend`, proved to append
  exactly `SessionChunks(...)`. A ghost field `sentAt` records the log length
  at the moment `filesSentSuccessfully` is raised; it is proved to equal the
  length of the whole send, so the flag goes up only after the last file.
  `OnReceiveFileChunk` models the receive handler, including that the
  published `receivedFiles` is the same array the handler keeps pushing into,
  not a copy.

Behaviours of the code that the model keeps as they are:

- An empty file announces `totalChunks = 0`, but the first read is
  unconditional (src/App.js:83), so one message with `chunkIndex = 0` and an
  empty payload is sent.
- The receiver marks completion when the delivered `index` equals
  `totalFiles` (src/App.js:122). What the relay means by `index` is not part
  of this model.
- The sender's progress formula on src/App.js:99 is analysed under Findings.

## Model

| member | source | states |
|---|---|---|
| `Chunking.TotalChunks` | src/App.js:51 | the chunk count is the least n with size <= n*CHUNK_SIZE (ceiling division), and it is zero exactly for an empty file |
| `Chunking.Slice` | src/App.js:79 | reading [start, end) inside the file gives exactly those bytes, an end past the file is clamped to it, and a start at or past the end of the file or past `end` gives nothing |
| `Chunking.Window` | src/App.js:76-79 | the window read for chunk k never exceeds CHUNK_SIZE and is empty once k*CHUNK_SIZE reaches the file's end; its exact bounds are proved in WindowBounds and WindowSizes |
| `Chunking.EmittedCount` | src/App.js:68-83 | a run emits at least one message and enough windows to cover the file, and exactly totalChunks messages for a non-empty file; the empty-file case is proved in EmptyFileChunks |
| `Chunking.FileChunks` | src/App.js:49-85 | one run's message stream has EmittedCount messages; its chunk indices run 0..totalChunks-1 (FileChunkIndices), its payloads reassemble the file (FileChunksReassemble) and its headers are constant (FileChunkHeaders) |
| `Chunking.SessionChunks` | src/App.js:95-103 | a send emits at least one message per selected file; its order and per-file content are proved in SessionChunksOrdered and SessionChunksOfFile |
| `Chunking.ExampleOneAndAHalfMegabytes` | src/App.js:76-79 | a 1,500,000-byte file gives 3 chunks of 524288, 524288 and 451424 bytes |
| `Chunking.WindowBounds` | src/App.js:76-79 | every emitted chunk k starts inside the file and covers exactly [k*CHUNK_SIZE, min(size, k*CHUNK_SIZE + CHUNK_SIZE)) |
| `Chunking.WindowSizes` | src/App.js:76-79 | no chunk exceeds CHUNK_SIZE, every chunk but the last is exactly CHUNK_SIZE, and the last ends at the end of the file |
| `Chunking.FileChunkIndices` | src/App.js:52-73 | for a non-empty file the run emits exactly totalChunks messages with chunkIndex 0..totalChunks-1 in order, the last one carrying totalChunks-1 |
| `Chunking.EmptyFileChunks` | src/App.js:49-85 | for an empty file the run emits exactly one message: chunkIndex 0, totalChunks 0, empty payload |
| `Chunking.FileChunkHeaders` | src/App.js:58-66 | every message of one run carries the same sessionId, fileName, totalChunks, totalFiles and fileIndex |
| `Chunking.PrefixPayloads` | src/App.js:76-80 | the first n windows of a run concatenate to the first min(size, n*CHUNK_SIZE) bytes of the file |
| `Chunking.FileChunksReassemble` | src/App.js:55-83 | the payloads of one run, concatenated in emission order, are exactly the file's bytes |
| `Chunking.SessionChunksStep` | src/App.js:95-98 | sending file k extends the stream of files 0..k-1 by exactly file k's run |
| `Chunking.SessionChunksOrdered` | src/App.js:95-98 | across a send every message names a selected file, and (fileIndex, chunkIndex) strictly increases, so all of file i's messages precede file i+1's |
| `Chunking.SessionChunksOfFile` | src/App.js:95-98 | picking file i's messages out of a send gives exactly file i's own run, and nothing for an index outside the selection |
| `Chunking.SessionReassemble` | src/App.js:95-98 | the payloads of file i's messages within a send, concatenated, are exactly file i's bytes |
| `Selection.WithAdded` | src/App.js:40-43 | the new list keeps the existing files in their positions and puts the picked files after them, in their order |
| `Selection.WithoutIndex` | src/App.js:45-47 | the filtered list is one shorter when the index is a position of the list and the same length otherwise |
| `Selection.WithoutIndexRemovesOne` | src/App.js:46 | deleting at position i gives prev[..i] + prev[i+1..]; an out-of-range index leaves the list unchanged |
| `Selection.DeleteUndoesAdd` | src/App.js:42-46 | deleting the file just appended at the end restores the previous list |
| `Progress.SenderProgressAsWritten` | src/App.js:99 | the formula as written lies strictly above index*100 and at most (index+1)*100, so it exceeds 100 for any index >= 1 |
| `Progress.AsWrittenOvershoots` | src/App.js:99 | the formula as written gives 150 after the second of two files |
| `Progress.AsWrittenExceedsHundred` | src/App.js:99 | the formula as written exceeds 100 after every file but the first |
| `Progress.SenderProgress` | src/App.js:99 | the intended reading lies in (0, 100] and is exactly 100 iff the file is the last one |
| `Progress.SenderProgressMonotonic` | src/App.js:99 | the intended reading never decreases from one file to a later one |
| `Client.Socket.Emit` | src/App.js:58-66 | an emitted message is appended to the log, after everything emitted before |
| `Client.App.constructor` | src/App.js:11-22 | the component starts with empty codes, an empty selection, all flags false and an empty received-files array |
| `Client.App.HandleFileChange` | src/App.js:40-43 | the selection becomes the old selection followed by the picked files |
| `Client.App.HandleFileDelete` | src/App.js:45-47 | the selection loses the file at the given position, if there is one |
| `Client.App.HandleCodeInput` | src/App.js:214 | the typed code is stored |
| `Client.App.SendFileChunks` | src/App.js:49-85 | the loop of read, emit, advance appends exactly the run `FileChunks` to the socket's log and returns only after its last message |
| `Client.App.SendFile` | src/App.js:96-102 | one round of the send loop appends exactly the file's run to the log, then raises filesSentSuccessfully if the file is the last one and otherwise leaves it as it was, recording in `sentAt` that the log then already holds that run |
| `Client.App.HandleSend` | src/App.js:87-88 | pressing Send emits one start-session request |
| `Client.App.OnSessionCreated` | src/App.js:90-104 | stores the code, appends exactly every selected file's run in index order, and sets filesSentSuccessfully iff there was at least one file; the ghost `sentAt` shows the flag was raised when the log already held every message of the send |
| `Client.App.HandleFetch` | src/App.js:108-115 | marks the receive pressed and loading, clears the success flag, starts a fresh empty array and emits fetch-files with the typed code |
| `Client.App.OnReceiveFileChunk` | src/App.js:117-126 | appends the delivered file, and when index equals totalFiles sets the success flag and publishes the same array as receivedFiles |

## Left out

- Base64: the payload is kept as the raw byte window. `btoa` and `atob` are browser built-ins with no code in the repository, so no encode/decode round trip is stated.
- `FileReader` and `file.slice` are asynchronous browser I/O. The file is an in-memory byte sequence and a read is `Slice` on it; the callback chain is a sequential loop.
- socket.io transport: connecting, delivery and acknowledgement are not modelled. `emit` is an append to `Socket.log`. `socket.on` registers a new listener on every click of Send or Receive; the model has one handler per event. The Send button stays on screen while files are selected (src/App.js:204), so after a second click both `session-created` listeners run on the next reply and two sending loops interleave their messages under one code. `SessionChunksOrdered` therefore holds for the messages of one handler run, not for the socket's whole stream.
- Client.App.OnSessionCreated: sends the current `selectedFiles`. The JavaScript handler sends the list captured when Send was pressed, which differs only if the selection is edited before the relay answers.
- Progress state: the `progress` field and `setProgress` calls (src/App.js:99, 111, 120) are display state and use floating point. The line 99 formula is analysed over exact reals under Findings. The receiver's reading on line 120 is formatted with `toFixed` and is not modelled.
- Rendering, styling, the loading-dot timer (src/App.js:24-32), `handleButtonClick`, `handleGoBack` and `downloadFile` (Blob, object URL, DOM link) are UI and browser I/O.
- Error alerts (src/App.js:128-130) are UI.
- Failed reads: the code installs no read-error handler, so a failed read leaves the run unresolved and stalls `handleSend` at its `await` (src/App.js:80, 50, 98); the model's reads cannot fail.
- Relay-side session table, code generation, reassembly and expiry are not part of this model: the relay is a separate server, and none of its code is in this client.
- Numbers are unbounded integers. JavaScript numbers are exact for file sizes and indices below 2^53, which covers every real file.

## Findings

| source | as written | input that shows it | evidently intended | confidence | as-written member | corrected member |
|---|---|---|---|---|---|---|
| src/App.js:99 | `(index + 1 / totalFiles) * 100`: division binds first | index 1, totalFiles 2 gives 150 percent | `(index + 1) / totalFiles * 100`, at most 100, reaching 100 after the last file | high; not executed | `Progress.SenderProgressAsWritten` | `Progress.SenderProgress` |
