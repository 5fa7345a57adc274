/** The client component: its state, the socket it talks through, and the
    handlers that send a selection chunk by chunk and collect the files the
    relay delivers. The socket is reduced to the log of messages it has been
    asked to emit. */
module Client {
  import opened Chunking
  import opened Selection

  /** The messages the client emits. */
  datatype Message =
    | StartSession
    | SendFileChunk(chunk: Chunk)
    | FetchFiles(code: string)

  /** A file as the relay hands it to the receiver: its name and its
      Base64 text. */
  datatype ReceivedFile = ReceivedFile(fileName: string, fileData: string)

  /** The `send-file-chunk` messages that carry `cs`, in order. */
  function AsMessages(cs: seq<Chunk>): (ms: seq<Message>)
    ensures |ms| == |cs|
    ensures forall i :: 0 <= i < |cs| ==> ms[i] == SendFileChunk(cs[i])
  {
    seq(|cs|, i requires 0 <= i < |cs| => SendFileChunk(cs[i]))
  }

  lemma AsMessagesAppend(a: seq<Chunk>, b: seq<Chunk>)
    ensures AsMessages(a + b) == AsMessages(a) + AsMessages(b)
  {
    assert |AsMessages(a + b)| == |AsMessages(a) + AsMessages(b)|;
    forall i | 0 <= i < |a + b|
      ensures AsMessages(a + b)[i] == (AsMessages(a) + AsMessages(b))[i]
    {
      if i >= |a| {
        assert (a + b)[i] == b[i - |a|];
      }
    }
  }

  /** Sending file k adds exactly that file's messages to the send's log. */
  lemma SessionLogStep(files: seq<File>, sessionId: string, totalFiles: nat, k: nat)
    requires k < |files|
    ensures AsMessages(SessionChunks(files[..k + 1], sessionId, totalFiles))
            == AsMessages(SessionChunks(files[..k], sessionId, totalFiles))
               + AsMessages(FileChunks(files[k], sessionId, totalFiles, k))
  {
    SessionChunksStep(files, sessionId, totalFiles, k);
    AsMessagesAppend(SessionChunks(files[..k], sessionId, totalFiles), FileChunks(files[k], sessionId, totalFiles, k));
  }

  /** The outgoing side of the socket: everything emitted, oldest first. */
  class Socket {
    var log: seq<Message>

    constructor ()
      ensures log == []
    {
      log := [];
    }

    method Emit(m: Message)
      modifies this
      ensures log == old(log) + [m]
    {
      log := log + [m];
    }
  }

  /** A JavaScript array of received files, shared by reference. */
  class FileList {
    var items: seq<ReceivedFile>

    constructor ()
      ensures items == []
    {
      items := [];
    }
  }

  /** The client's state. `pending` is the array the latest fetch collects
      into; it is null until the first fetch registers its handler.
      `sentAt` records how many messages the socket had emitted when
      `filesSentSuccessfully` was last raised (-1 while it never was). */
  class App {
    const socket: Socket
    var sessionId: string
    var sessionIdInput: string
    var selectedFiles: seq<File>
    var filesSentSuccessfully: bool
    var filesReceivedSuccessfully: bool
    var receivePressed: bool
    var loading: bool
    var receivedFiles: FileList
    var pending: FileList?
    ghost var sentAt: int

    constructor (socket: Socket)
      ensures this.socket == socket
      ensures sessionId == "" && sessionIdInput == "" && selectedFiles == []
      ensures !filesSentSuccessfully && !filesReceivedSuccessfully && !receivePressed && !loading
      ensures fresh(receivedFiles) && receivedFiles.items == [] && pending == null
      ensures sentAt == -1
    {
      this.socket := socket;
      sessionId, sessionIdInput, selectedFiles := "", "", [];
      filesSentSuccessfully, filesReceivedSuccessfully := false, false;
      receivePressed, loading := false, false;
      receivedFiles := new FileList();
      pending := null;
      sentAt := -1;
    }

    /** Newly picked files are appended to the selection. */
    method HandleFileChange(files: seq<File>)
      modifies this`selectedFiles
      ensures selectedFiles == WithAdded(old(selectedFiles), files)
    {
      selectedFiles := WithAdded(selectedFiles, files);
    }

    /** The file at `index` is dropped from the selection. */
    method HandleFileDelete(index: int)
      modifies this`selectedFiles
      ensures selectedFiles == WithoutIndex(old(selectedFiles), index)
    {
      selectedFiles := WithoutIndex(selectedFiles, index);
    }

    /** The code typed into the receive box. */
    method HandleCodeInput(text: string)
      modifies this`sessionIdInput
      ensures sessionIdInput == text
    {
      sessionIdInput := text;
    }

    /** `sendFileChunks`: read a window, emit it, advance the counter, and
        read the next window only after the previous one was emitted; return
        (resolve) once the last window is out. The first read is unconditional. */
    method SendFileChunks(file: File, sessionId: string, totalFiles: nat, fileIndex: nat)
      modifies socket
      ensures socket.log == old(socket.log) + AsMessages(FileChunks(file, sessionId, totalFiles, fileIndex))
    {
      ghost var expected := FileChunks(file, sessionId, totalFiles, fileIndex);
      var size := |file.data|;
      var totalChunks := TotalChunks(size);
      var chunkIndex: nat := 0;
      var resolved := false;
      while !resolved
        invariant chunkIndex <= |expected|
        invariant resolved <==> chunkIndex == |expected|
        invariant socket.log == old(socket.log) + AsMessages(expected[..chunkIndex])
        decreases |expected| - chunkIndex
      {
        // readNextChunk
        var start := chunkIndex * ChunkSize;
        var end := Min(size, start + ChunkSize);
        var chunkData := Slice(file.data, start, end);
        // reader.onload
        var chunk := Chunk(sessionId, file.name, chunkIndex, totalChunks, chunkData, totalFiles, fileIndex);
        assert chunk == expected[chunkIndex];
        socket.Emit(SendFileChunk(chunk));
        AsMessagesAppend(expected[..chunkIndex], [chunk]);
        assert expected[..chunkIndex + 1] == expected[..chunkIndex] + [chunk];
        chunkIndex := chunkIndex + 1;
        if chunkIndex < totalChunks {
        } else {
          resolved := true;
        }
      }
      assert expected[..chunkIndex] == expected;
    }

    /** Pressing Send asks the relay for a session. */
    method HandleSend()
      modifies socket
      ensures socket.log == old(socket.log) + [StartSession]
    {
      socket.Emit(StartSession);
    }

    /** One round of the send loop: send the file at `index` completely,
        then raise the success flag if it was the last file. */
    method SendFile(id: string, totalFiles: nat, index: nat)
      requires index < |selectedFiles|
      modifies this`filesSentSuccessfully, this`sentAt, socket
      ensures socket.log == old(socket.log) + AsMessages(FileChunks(selectedFiles[index], id, totalFiles, index))
      ensures filesSentSuccessfully == (old(filesSentSuccessfully) || index + 1 == totalFiles)
      ensures sentAt == if index + 1 == totalFiles then |socket.log| else old(sentAt)
    {
      var file := selectedFiles[index];
      SendFileChunks(file, id, totalFiles, index);
      if index + 1 == totalFiles {
        filesSentSuccessfully := true;
        sentAt := |socket.log|;
      }
    }

    /** The `session-created` handler: remember the code, then send the
        selected files one after another in index order, each file's run
        finished before the next starts, and mark the send successful when
        the last file is out: the flag is raised once, after the last
        message of the last file and before nothing else is emitted. */
    method OnSessionCreated(id: string)
      modifies this`sessionId, this`filesSentSuccessfully, this`sentAt, socket
      ensures sessionId == id
      ensures socket.log == old(socket.log) + AsMessages(SessionChunks(selectedFiles, id, |selectedFiles|))
      ensures filesSentSuccessfully == (old(filesSentSuccessfully) || |selectedFiles| > 0)
      ensures |selectedFiles| > 0 ==> sentAt == |socket.log|
      ensures |selectedFiles| == 0 ==> sentAt == old(sentAt)
    {
      sessionId := id;
      var totalFiles := |selectedFiles|;
      var index := 0;
      while index < totalFiles
        invariant 0 <= index <= totalFiles
        invariant sessionId == id
        invariant socket.log == old(socket.log) + AsMessages(SessionChunks(selectedFiles[..index], id, totalFiles))
        invariant filesSentSuccessfully == (old(filesSentSuccessfully) || (0 < index && index == totalFiles))
        invariant sentAt == if 0 < index && index == totalFiles then |socket.log| else old(sentAt)
      {
        ghost var sent := AsMessages(SessionChunks(selectedFiles[..index], id, totalFiles));
        ghost var run := AsMessages(FileChunks(selectedFiles[index], id, totalFiles, index));
        SendFile(id, totalFiles, index);
        assert socket.log == old(socket.log) + (sent + run);
        SessionLogStep(selectedFiles, id, totalFiles, index);
        index := index + 1;
      }
      assert selectedFiles[..index] == selectedFiles;
    }

    /** Pressing Receive: ask the relay for the files under the typed code
        and start collecting into a new array. */
    method HandleFetch()
      modifies this`receivePressed, this`loading, this`filesReceivedSuccessfully, this`pending, socket
      ensures receivePressed && loading && !filesReceivedSuccessfully
      ensures pending != null && fresh(pending) && pending.items == []
      ensures socket.log == old(socket.log) + [FetchFiles(sessionIdInput)]
    {
      receivePressed, loading := true, true;
      filesReceivedSuccessfully := false;
      pending := new FileList();
      socket.Emit(FetchFiles(sessionIdInput));
    }

    /** The `receive-file-chunk` handler: collect the file, and when the
        relay's `index` equals `totalFiles` publish the collected array (the
        same array, not a copy) and mark the receive successful. */
    method OnReceiveFileChunk(file: ReceivedFile, index: int, totalFiles: int)
      requires pending != null
      modifies this`loading, this`filesReceivedSuccessfully, this`receivedFiles, pending
      ensures pending == old(pending) && pending.items == old(pending.items) + [file]
      ensures !loading
      ensures filesReceivedSuccessfully == (old(filesReceivedSuccessfully) || index == totalFiles)
      ensures receivedFiles == if index == totalFiles then pending else old(receivedFiles)
    {
      pending.items := pending.items + [file];
      loading := false;
      if index == totalFiles {
        filesReceivedSuccessfully := true;
        receivedFiles := pending;
      }
    }
  }
}
