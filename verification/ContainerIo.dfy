/**
 The loop between the terminal and an attached container. Every choice of what is ready, every
 short read and every partial send is covered: the choices are arbitrary.
 */
module ContainerIo {
  import opened Sequences
  import opened Bytes
  import opened AttachStream
  import opened CommandLogs

  const BUFFER_SIZE := 1024 * 1024

  /** The socket to the container: a source of its output, and what it was sent. */
  class ContainerSocket {
    const output: Source
    var sent: Data
    var writable: bool

    constructor (output: Source)
      ensures this.output == output && sent == [] && writable
    {
      this.output := output;
      sent, writable := [], true;
    }

    /** Sends a part of the data. */
    method Send(data: Data) returns (count: nat)
      requires writable && data != []
      modifies `sent
      ensures 1 <= count <= |data| && sent == old(sent) + data[..count]
    {
      count :| 1 <= count <= |data|;
      sent := sent + data[..count];
    }

    method ShutdownWrite()
      requires writable
      modifies `writable
      ensures !writable
    {
      writable := false;
    }
  }

  class ToolStream {
    const stream: Sink?
    const hash: Sha256
    var dataLength: nat
    var raw: Data

    ghost predicate Counts(data: Data)
      reads this, hash
    {
      dataLength == |data| && hash.absorbed == data
    }

    constructor (stream: Sink?)
      ensures this.stream == stream && fresh(hash) && Counts([]) && raw == []
    {
      this.stream := stream;
      hash := new Sha256();
      dataLength, raw := 0, [];
    }

    method Update(data: Data, ghost before: Data)
      requires Counts(before)
      modifies `dataLength, hash
      ensures Counts(before + data)
    {
      dataLength := dataLength + |data|;
      hash.Update(data);
    }

    /** The log entry of the stream, unless it was empty. */
    method Logged(path: string, digest: Digest, ghost data: Data) returns (files: seq<FileLog>)
      requires Counts(data)
      ensures files == LogEntry(path, data, digest)
    {
      files := if dataLength != 0 then [FileLog(path, hash.HexDigest(digest))] else [];
    }
  }

  /** Takes in what came for one stream: counted, and collected or written. */
  method Deliver(s: ToolStream, data: Data, bufferOutput: bool, ghost before: Data)
    requires s.stream != null && s.Counts(before)
    modifies s, s.hash, s.stream
    ensures s.Counts(before + data)
    ensures s.raw == old(s.raw) + if bufferOutput then data else []
    ensures s.stream.written == old(s.stream.written) + if bufferOutput then [] else data
  {
    s.Update(data, before);
    if bufferOutput {
      s.raw := s.raw + data;
    } else {
      s.stream.Write(data);
    }
  }

  /** Writes all of the data, in however many parts. */
  method SendAll(socket: ContainerSocket, data: Data)
    requires socket.writable
    modifies socket`sent
    ensures socket.sent == old(socket.sent) + data
  {
    var outOff := 0;
    while outOff < |data|
      invariant 0 <= outOff <= |data|
      invariant socket.sent == old(socket.sent) + data[..outOff]
    {
      var count := socket.Send(data[outOff..]);
      assert data[..outOff] + data[outOff..][..count] == data[..outOff + count];
      outOff := outOff + count;
    }
  }

  /** The part of a byte stream that a stream of the terminal gets. */
  function Shown(data: Data, shown: bool): Data {
    if shown then data else []
  }

  lemma ShownAdds(data: Data, more: Data, shown: bool)
    ensures Shown(data + more, shown) == Shown(data, shown) + Shown(more, shown)
  {
  }

  function LogEntry(path: string, data: Data, digest: Digest): seq<FileLog> {
    if data == [] then [] else [FileLog(path, digest(data))]
  }

  /** The two streams to the terminal, and what they held before. */
  class Terminal {
    const out: ToolStream
    const err: ToolStream
    const writeStdout: bool
    const bufferOutput: bool
    ghost const outBefore: Data
    ghost const errBefore: Data

    ghost predicate Valid()
      reads this
    {
      && out.stream != null && err.stream != null && out.stream != err.stream
      && out != err && out.hash != err.hash
    }

    /** Everything delivered is counted, and either collected or written. */
    ghost predicate Holds(o: Data, e: Data)
      requires Valid()
      reads this, out, out.hash, out.stream, err, err.hash, err.stream
    {
      && out.Counts(Shown(o, writeStdout)) && err.Counts(e)
      && out.raw == Shown(o, writeStdout && bufferOutput) && err.raw == Shown(e, bufferOutput)
      && out.stream.written == outBefore + Shown(o, writeStdout && !bufferOutput)
      && err.stream.written == errBefore + Shown(e, !bufferOutput)
    }

    constructor (stdout: Sink, stderr: Sink, writeStdout: bool, bufferOutput: bool)
      requires stdout != stderr
      ensures Valid() && Holds([], []) && out.stream == stdout && err.stream == stderr
      ensures this.writeStdout == writeStdout && this.bufferOutput == bufferOutput
      ensures outBefore == stdout.written && errBefore == stderr.written
      ensures fresh(out) && fresh(err) && fresh(out.hash) && fresh(err.hash)
    {
      out := new ToolStream(stdout);
      err := new ToolStream(stderr);
      this.writeStdout, this.bufferOutput := writeStdout, bufferOutput;
      outBefore, errBefore := stdout.written, stderr.written;
    }

    /** One frame from the container. */
    method Receive(kind: nat, payload: Data, ghost o: Data, ghost e: Data)
      requires Valid() && Holds(o, e)
      modifies out, out.hash, out.stream, err, err.hash, err.stream
      ensures Holds(o + Shown(payload, kind == STDOUT), e + Shown(payload, kind == STDERR))
    {
      if kind == STDOUT {
        assert e + [] == e;
        ShownAdds(o, payload, writeStdout);
        ShownAdds(o, payload, writeStdout && bufferOutput);
        ShownAdds(o, payload, writeStdout && !bufferOutput);
        Regroup(outBefore, Shown(o, writeStdout && !bufferOutput), Shown(payload, writeStdout && !bufferOutput));
        if writeStdout {
          Deliver(out, payload, bufferOutput, Shown(o, writeStdout));
        }
      } else if kind == STDERR {
        assert o + [] == o;
        Regroup(errBefore, Shown(e, !bufferOutput), Shown(payload, !bufferOutput));
        ShownAdds(e, payload, bufferOutput);
        ShownAdds(e, payload, !bufferOutput);
        Deliver(err, payload, bufferOutput, e);
      } else {
        assert o + [] == o && e + [] == e;
      }
    }
  }

  /** What is delivered is what the rest of the input will deliver, added to what came so far. */
  ghost predicate Remaining(got: Delivery, left: Data, open: bool, out: Data, err: Data) {
    if open then
      var more := Demultiplex(left);
      got == Delivery(out + more.out, err + more.err, more.aborted)
    else got == Delivery(out, err, false)
  }

  lemma OneFrame(got: Delivery, left: Data, out: Data, err: Data)
    requires Remaining(got, left, true, out, err)
    ensures var (r, rest) := Unpack(left);
      && |rest| <= |left|
      && (r.Aborted? ==> got == Delivery(out, err, true))
      && (r.Eof? ==> Remaining(got, rest, false, out, err))
      && (r.Unpacked? && r.payload == [] ==> Remaining(got, rest, false, out, err))
      && (r.Unpacked? && r.payload != [] ==> |rest| < |left|)
      && (r.Unpacked? && r.payload != [] ==>
          Remaining(got, rest, true, out + Shown(r.payload, r.kind == STDOUT), err + Shown(r.payload, r.kind == STDERR)))
  {
    var (r, rest) := Unpack(left);
    var more := Demultiplex(rest);
    if r.Unpacked? && r.payload != [] {
      var o, e := Shown(r.payload, r.kind == STDOUT), Shown(r.payload, r.kind == STDERR);
      Regroup(out, o, more.out);
      Regroup(err, e, more.err);
    } else {
      assert out + [] == out && err + [] == err;
    }
  }

  /** The socket is readable: one frame is taken in. */
  method FromContainer(socket: ContainerSocket, terminal: Terminal, ghost got: Delivery, ghost out: Data, ghost err: Data)
    returns (open: bool, aborted: bool, ghost out': Data, ghost err': Data)
    requires terminal.Valid() && terminal.Holds(out, err) && Remaining(got, socket.output.left, true, out, err)
    modifies socket.output, terminal.out, terminal.out.hash, terminal.out.stream
    modifies terminal.err, terminal.err.hash, terminal.err.stream
    ensures terminal.Holds(out', err')
    ensures if aborted then got == Delivery(out', err', true) else Remaining(got, socket.output.left, open, out', err')
    ensures !aborted ==> |socket.output.left| + (if open then 1 else 0) <= old(|socket.output.left|)
  {
    OneFrame(got, socket.output.left, out, err);
    var r := UnpackContainerStream(socket.output);
    open, aborted, out', err' := true, false, out, err;
    if r.Aborted? {
      aborted := true;
    } else if r.Eof? || r.payload == [] {
      open := false;
    } else {
      terminal.Receive(r.kind, r.payload, out, err);
      out', err' := out + Shown(r.payload, r.kind == STDOUT), err + Shown(r.payload, r.kind == STDERR);
    }
  }

  /** The standard input is readable: what it gives is sent on; its end is passed on once. */
  method FromStdin(socket: ContainerSocket, stdin: Source, stream: ToolStream, ghost sent: Data)
    returns (active: bool, ghost more: Data)
    requires socket.writable && stream.Counts(sent)
    modifies socket`sent, socket`writable, stdin, stream`dataLength, stream.hash
    ensures socket.sent == old(socket.sent) + more && more + stdin.left == old(stdin.left)
    ensures stream.Counts(sent + more)
    ensures active == socket.writable
    ensures !active ==> stdin.left == []
    ensures |stdin.left| + (if active then 1 else 0) <= old(|stdin.left|)
  {
    var data := stdin.Read(BUFFER_SIZE);
    more := data;
    active := data != [];
    if !active {
      socket.ShutdownWrite();
      assert sent + more == sent;
    } else {
      stream.Update(data, sent);
      SendAll(socket, data);
    }
  }

  datatype ExecLog = ExecLog(stdout: Data, stderr: Data, inFiles: seq<FileLog>, outFiles: seq<FileLog>)

  /** The loop, until the container's output ends. `stdin` is null unless it is read. */
  method IoLoop(socket: ContainerSocket, stdin: Source?, terminal: Terminal, stdinS: ToolStream)
    returns (aborted: bool, ghost got: Delivery, ghost sent: Data)
    requires socket.writable && stdin != socket.output && stdinS.Counts([])
    requires terminal.Valid() && terminal.Holds([], [])
    requires stdinS !in {terminal.out, terminal.err} && stdinS.hash !in {terminal.out.hash, terminal.err.hash}
    modifies socket, socket.output, if stdin == null then {} else {stdin}
    modifies stdinS, stdinS.hash
    modifies terminal.out, terminal.out.hash, terminal.out.stream, terminal.err, terminal.err.hash, terminal.err.stream
    ensures got == Demultiplex(old(socket.output.left)) && aborted == got.aborted
    ensures terminal.Holds(got.out, got.err)
    ensures socket.sent == old(socket.sent) + sent && stdinS.Counts(sent)
    ensures if stdin == null then sent == [] else sent + stdin.left == old(stdin.left)
    ensures !socket.writable ==> stdin != null && stdin.left == []
  {
    got := Demultiplex(socket.output.left);
    ghost var out, err: Data := [], [];
    aborted, sent := false, [];
    var stdinActive := stdin != null;
    var socketOpen := true;
    while socketOpen
      invariant Remaining(got, socket.output.left, socketOpen, out, err) && terminal.Holds(out, err)
      invariant socket.sent == old(socket.sent) + sent && stdinS.Counts(sent)
      invariant if stdin == null then !stdinActive && sent == [] else sent + stdin.left == old(stdin.left)
      invariant stdinActive ==> socket.writable
      invariant !socket.writable ==> stdin != null && stdin.left == []
      decreases |socket.output.left| + (if socketOpen then 1 else 0)
              + (if stdin == null then 0 else |stdin.left|) + (if stdinActive then 1 else 0)
    {
      if stdinActive {
        var selectable: bool := *;
        if !selectable {  // some standard inputs cannot be waited for
          stdinActive := false;
          continue;
        }
      }
      var socketReady, stdinReady :| (socketReady || stdinReady) && (stdinReady ==> stdinActive);
      if socketReady {
        socketOpen, aborted, out, err := FromContainer(socket, terminal, got, out, err);
        if aborted {
          return;
        }
      }
      if stdinReady {
        ghost var more;
        stdinActive, more := FromStdin(socket, stdin, stdinS, sent);
        Regroup(old(socket.sent), sent, more);
        Regroup(sent, more, stdin.left);
        sent := sent + more;
      }
    }
  }

  /** Runs a started container to the end of its output and logs its streams. */
  method ContainerExec(socket: ContainerSocket, stdin: Source?, stdout: Sink, stderr: Sink, writeStdout: bool,
                       bufferOutput: bool, exitCode: int, digest: Digest)
    returns (log: ExecLog, aborted: bool, ghost sent: Data)
    requires socket.writable && stdout != stderr && stdin != socket.output
    modifies socket, socket.output, stdout, stderr, if stdin == null then {} else {stdin}
    ensures aborted == Demultiplex(old(socket.output.left)).aborted
    ensures var got := Demultiplex(old(socket.output.left));
      && stdout.written == old(stdout.written) + (if writeStdout && !bufferOutput then got.out else [])
      && stderr.written == old(stderr.written) + (if bufferOutput then [] else got.err)
    ensures socket.sent == old(socket.sent) + sent
    ensures if stdin == null then sent == [] else sent + stdin.left == old(stdin.left)
    ensures !socket.writable ==> stdin != null && stdin.left == []
    ensures !aborted ==>
      var got := Demultiplex(old(socket.output.left));
      && log.stdout == (if writeStdout && bufferOutput then got.out else [])
      && log.stderr == (if bufferOutput then got.err else [])
      && log.inFiles == (if exitCode == 0 && sent != [] then [FileLog("/dev/stdin", digest(sent))] else [])
      && log.outFiles ==
           (if exitCode == 0 && writeStdout && got.out != [] then [FileLog("/dev/stdout", digest(got.out))] else [])
         + (if exitCode == 0 && got.err != [] then [FileLog("/dev/stderr", digest(got.err))] else [])
  {
    var terminal := new Terminal(stdout, stderr, writeStdout, bufferOutput);
    var stdinS := new ToolStream(null);
    log := ExecLog([], [], [], []);
    ghost var got;
    aborted, got, sent := IoLoop(socket, stdin, terminal, stdinS);
    if aborted {
      return;
    }
    log := log.(stdout := terminal.out.raw, stderr := terminal.err.raw);
    if exitCode == 0 {
      var inFiles := stdinS.Logged("/dev/stdin", digest, sent);
      var outFile := terminal.out.Logged("/dev/stdout", digest, Shown(got.out, writeStdout));
      var errFile := terminal.err.Logged("/dev/stderr", digest, got.err);
      log := log.(inFiles := inFiles, outFiles := outFile + errFile);
    }
  }
}
