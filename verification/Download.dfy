/** Sending a file in chunks: the message format and the send loop of the file-transfer client. */
module Download {
  import opened ByteStrings

  const MAXUINT32 := 0x1_0000_0000

  /** uid (4 bytes), message number, chunk size (4 bytes, most significant first), last flag, chunk. */
  datatype Message = Message(uid: bytes, number: byte, last: byte, chunk: bytes)

  function BigEndian(n: nat): (b: bytes)
    requires n < MAXUINT32
    ensures |b| == 4
  {
    [n / 0x100_0000, n / 0x1_0000 % 256, n / 256 % 256, n % 256]
  }

  function FromBigEndian(b: bytes): nat
    requires |b| == 4
  {
    ((b[0] as int * 256 + b[1] as int) * 256 + b[2] as int) * 256 + b[3] as int
  }

  lemma BigEndianRoundTrip(n: nat)
    requires n < MAXUINT32
    ensures FromBigEndian(BigEndian(n)) == n
  {
    var a, b, c := n / 0x100_0000, n / 0x1_0000, n / 256;
    assert c == b * 256 + c % 256 && b == a * 256 + b % 256;
    assert b == c / 256 && a == b / 256;
  }

  ghost predicate Sendable(m: Message) {
    |m.uid| == 4 && |m.chunk| < MAXUINT32
  }

  function Wire(m: Message): bytes
    requires Sendable(m)
  {
    m.uid + [m.number] + BigEndian(|m.chunk|) + [m.last] + m.chunk
  }

  /** The fields of a message; too short a one ends the session. */
  datatype Decoded = Decoded(uid: bytes, number: byte, last: byte, chunkSize: nat, chunk: bytes)

  function Decode(s: bytes): Decoded {
    if |s| < 10 then Decoded([], 0, 1, 0, [])
    else Decoded(s[..4], s[4], s[9], FromBigEndian(s[5..9]), s[10..])
  }

  lemma {:induction false} DecodeWire(m: Message)
    requires Sendable(m)
    ensures Decode(Wire(m)) == Decoded(m.uid, m.number, m.last, |m.chunk|, m.chunk)
  {
    var s := Wire(m);
    assert s[..4] == m.uid && s[5..9] == BigEndian(|m.chunk|) && s[10..] == m.chunk;
    BigEndianRoundTrip(|m.chunk|);
  }

  /** The wire form byte by byte: uid, number, size with the most significant byte first, flag, chunk. */
  lemma {:induction false} WireAt(m: Message)
    requires Sendable(m)
    ensures var s := Wire(m);
            && |s| == 10 + |m.chunk| && s[..4] == m.uid && s[4] == m.number && s[9] == m.last && s[10..] == m.chunk
            && s[5] as int * 0x100_0000 + s[6] as int * 0x1_0000 + s[7] as int * 0x100 + s[8] as int == |m.chunk|
  {
    var s := Wire(m);
    assert s[5..9] == BigEndian(|m.chunk|);
    assert s[5] == s[5..9][0] && s[6] == s[5..9][1] && s[7] == s[5..9][2] && s[8] == s[5..9][3];
    BigEndianRoundTrip(|m.chunk|);
  }

  /** Builds a message in a fresh buffer, byte by byte. Only the first `size` bytes of the chunk buffer count. */
  method EncodeDlRequest(uid: bytes, number: byte, last: byte, size: nat, buffer: array<byte>) returns (request: array<byte>)
    requires |uid| == 4 && size <= buffer.Length && size < MAXUINT32
    ensures fresh(request) && request[..] == Wire(Message(uid, number, last, buffer[..size]))
  {
    hide BigEndian;
    request := new byte[10 + size](_ => 0);
    request[0], request[1], request[2], request[3] := uid[0], uid[1], uid[2], uid[3];
    request[4] := number;
    var sizeBytes := BigEndian(size);
    var i := 0;
    while i < 4
      invariant 0 <= i <= 4
      invariant request[0] == uid[0] && request[1] == uid[1] && request[2] == uid[2] && request[3] == uid[3]
      invariant request[4] == number
      invariant forall k :: 0 <= k < i ==> request[5 + k] == sizeBytes[k]
    {
      request[5 + i] := sizeBytes[i];
      i := i + 1;
    }
    request[9] := last;
    ghost var head := request[..10];
    assert head == uid + [number] + sizeBytes + [last];
    i := 0;
    while i < size
      invariant 0 <= i <= size && request[..10] == head
      invariant forall k :: 0 <= k < i ==> request[10 + k] == buffer[k]
    {
      request[10 + i] := buffer[i];
      i := i + 1;
    }
    assert request[10..] == buffer[..size];
    assert request[..] == request[..10] + request[10..];
  }

  // ----- reading -----

  class FileReader {
    const data: bytes
    var position: nat

    constructor (data: bytes)
      ensures this.data == data && position == 0
    {
      this.data := data;
      position := 0;
    }

    /** Fills the buffer as far as the file goes; at the end, nothing and the last flag. */
    method ReadChunk(buffer: array<byte>) returns (n: nat, last: byte)
      requires position <= |data| && buffer.Length > 0
      modifies this, buffer
      ensures n == if |data| - old(position) < buffer.Length then |data| - old(position) else buffer.Length
      ensures position == old(position) + n && buffer[..n] == data[old(position)..position]
      ensures last == if old(position) == |data| then 1 else 0
    {
      n := if |data| - position < buffer.Length then |data| - position else buffer.Length;
      last := if position == |data| then 1 else 0;
      var i := 0;
      while i < n
        invariant 0 <= i <= n && position == old(position)
        invariant forall k :: 0 <= k < i ==> buffer[k] == data[position + k]
      {
        buffer[i] := data[position + i];
        i := i + 1;
      }
      position := position + n;
    }
  }

  // ----- responses -----

  /** Builds a response: uid (4 bytes), message number, status. */
  method EncodeUlRequest(uid: bytes, number: byte, status: byte) returns (response: array<byte>)
    requires |uid| == 4
    ensures fresh(response) && response[..] == uid + [number, status]
  {
    response := new byte[6](_ => 0);
    response[0], response[1], response[2], response[3] := uid[0], uid[1], uid[2], uid[3];
    response[4] := number;
    response[5] := status;
  }

  // ----- the send loop -----

  /** The receiver's answer: accepted, session ended, or refused with the number it expects. */
  datatype Reply = Accepted | Terminated | Refused(expected: byte)

  /** A response is uid (4 bytes), message number, status; one that is too short ends the session. */
  function Classify(response: bytes, number: byte): Reply {
    var mNo := if |response| < 6 then 0 else response[4];
    var status := if |response| < 6 then 0xFF else response[5];
    if status == 0 && mNo == number then Accepted
    else if status == 0xFF then Terminated
    else Refused(mNo)
  }

  /** What an encoded response is taken for, by its number and its status. */
  lemma {:induction false} ResponseRead(uid: bytes, number: byte, status: byte, sent: byte)
    requires |uid| == 4
    ensures var reply := Classify(uid + [number, status], sent);
            && (reply == Accepted <==> status == 0 && number == sent)
            && (reply == Terminated <==> status == 255)
            && (reply == Refused(number) <==> status != 255 && (status != 0 || number != sent))
  {
    var response := uid + [number, status];
    assert response[4] == number && response[5] == status;
  }

  lemma ShortResponse(response: bytes, sent: byte)
    requires |response| < 6
    ensures Classify(response, sent) == Terminated
  {
  }

  /** The number of the next message: one more, or whatever a refusal names. */
  function NextNumber(number: byte, reply: Reply): byte {
    match reply
    case Accepted => (number + 1) % 256
    case Refused(expected) => expected
    case Terminated => number
  }

  /** The loop's record of a session: what was sent and how each message was answered. */
  datatype Log = Log(sent: seq<Message>, replies: seq<Reply>) {
    function Add(m: Message, r: Reply): Log { Log(sent + [m], replies + [r]) }

    /** One reply for each message; numbers start at one and follow the replies. */
    ghost predicate Numbered() {
      && |replies| == |sent|
      && (sent != [] ==> sent[0].number == 1)
      && forall k :: 0 < k < |sent| ==> sent[k].number == NextNumber(sent[k - 1].number, replies[k - 1])
    }
  }

  function Joined(sent: seq<Message>): bytes {
    if sent == [] then [] else Joined(sent[..|sent| - 1]) + sent[|sent| - 1].chunk
  }

  /** Every message before the final one carries data, no last flag, and did not end the session. */
  ghost predicate DataMessages(log: Log, count: nat)
    requires count <= |log.sent| == |log.replies|
  {
    forall k :: 0 <= k < count ==> log.sent[k].last == 0 && log.sent[k].chunk != [] && log.replies[k] != Terminated
  }

  /** A session under way: data only, covering the file up to `start`. */
  ghost predicate Running(file: bytes, n: nat, size: nat, log: Log, start: nat) {
    && log.Numbered() && DataMessages(log, |log.sent|)
    && start <= |file| && Joined(log.sent) == file[..start]
    && (if start < |file| then start == |log.sent| * size else |log.sent| <= n)
  }

  /**
   A finished session: at most one message more than chunks asked for, and together a prefix of the
   file. Unless the receiver ended it, they join to the file, and the final message is empty and
   alone flagged last.
   */
  ghost predicate Finished(file: bytes, n: nat, log: Log) {
    && log.Numbered() && log.sent != [] && DataMessages(log, |log.sent| - 1)
    && Joined(log.sent) <= file && |log.sent| <= n + 1
    && (log.replies[|log.sent| - 1] != Terminated ==>
          && Joined(log.sent) == file
          && log.sent[|log.sent| - 1].last == 1 && log.sent[|log.sent| - 1].chunk == [])
  }

  /**
   What follows message `k`, by the bytes of its response: a response of fewer than six bytes, or with
   status 255, is the last; after status 0 with the same number the next message has the next number;
   after any other response it has the number in the response.
   */
  ghost predicate Answered(log: Log, k: nat, response: bytes)
    requires k < |log.sent|
  {
    && (|response| < 6 || response[5] == 255 ==> k == |log.sent| - 1)
    && (|response| >= 6 && response[5] == 0 && response[4] == log.sent[k].number && k + 1 < |log.sent| ==>
          log.sent[k + 1].number == (log.sent[k].number + 1) % 256)
    && (|response| >= 6 && (response[5] != 0 || response[4] != log.sent[k].number) && k + 1 < |log.sent| ==>
          log.sent[k + 1].number == response[4])
  }

  lemma {:induction false} SessionAnswered(file: bytes, n: nat, log: Log, k: nat, response: bytes)
    requires Finished(file, n, log) && k < |log.sent| && log.replies[k] == Classify(response, log.sent[k].number)
    ensures Answered(log, k, response)
  {
    if k + 1 < |log.sent| {
      assert log.sent[k + 1].number == NextNumber(log.sent[k].number, log.replies[k]);
    }
  }

  function FollowingNumber(log: Log): byte
    requires |log.replies| == |log.sent|
  {
    if log.sent == [] then 1 else NextNumber(log.sent[|log.sent| - 1].number, log.replies[|log.sent| - 1])
  }

  /** One more message with the next chunk, which runs up to `position`, and its reply. */
  lemma {:induction false} SendNext(file: bytes, n: nat, size: nat, log: Log, start: nat, position: nat, m: Message, r: Reply)
    requires n >= 1 && size == |file| / n + 1 && Running(file, n, size, log, start)
    requires start <= position <= |file| && m.chunk == file[start..position] && m.last == (if start == |file| then 1 else 0)
    requires start < |file| ==> position > start
    requires position < |file| ==> position - start == size
    requires m.number == FollowingNumber(log)
    ensures r == Terminated || m.last == 1 ==> Finished(file, n, log.Add(m, r))
    ensures r != Terminated && m.last == 0 ==> Running(file, n, size, log.Add(m, r), position)
  {
    assert |log.sent| == |log.replies|;
    hide NextNumber, Log.Numbered, DataMessages, Joined;
    JoinedSnoc(log.sent, m);
    AddNumbered(log, m, r);
    AddData(log, m, r);
    assert file[..start] + file[start..position] == file[..position];
    assert file[..|file|] == file;
    if m.last == 0 {
      CountBound(|file|, n, size, |log.sent| + 1, start, position);
    }
  }

  lemma {:induction false} AddNumbered(log: Log, m: Message, r: Reply)
    requires log.Numbered() && m.number == FollowingNumber(log)
    ensures log.Add(m, r).Numbered()
  {
    hide NextNumber;
    var all := log.Add(m, r);
    assert forall k :: 0 <= k < |log.sent| ==> all.sent[k] == log.sent[k] && all.replies[k] == log.replies[k];
  }

  lemma {:induction false} AddData(log: Log, m: Message, r: Reply)
    requires |log.sent| == |log.replies| && DataMessages(log, |log.sent|)
    ensures DataMessages(log.Add(m, r), |log.sent|)
    ensures m.last == 0 && m.chunk != [] && r != Terminated ==> DataMessages(log.Add(m, r), |log.sent| + 1)
  {
    var all := log.Add(m, r);
    assert forall k :: 0 <= k < |log.sent| ==> all.sent[k] == log.sent[k] && all.replies[k] == log.replies[k];
  }

  method DownloadFile(file: bytes, numOfChunks: nat, uid: bytes, responses: nat -> bytes)
    returns (log: Log, wire: seq<bytes>)
    requires numOfChunks >= 1 && |uid| == 4 && |file| / numOfChunks + 11 < MAXUINT32
    ensures Finished(file, numOfChunks, log)
    ensures forall k :: 0 <= k < |log.sent| ==> log.replies[k] == Classify(responses(k), log.sent[k].number)
    ensures log.sent[0].number == 1 && forall k: nat :: k < |log.sent| ==> Answered(log, k, responses(k))
    ensures |wire| == |log.sent|
    ensures forall k :: 0 <= k < |wire| ==> Sendable(log.sent[k]) && log.sent[k].uid == uid && wire[k] == Wire(log.sent[k])
  {
    hide Running, Finished, Wire, NextNumber, Classify, Answered, FollowingNumber;
    var reader := new FileReader(file);
    var size := |file| / numOfChunks + 1;
    SizeBound(|file|, numOfChunks);
    var buffer := new byte[size](_ => 0);
    var number: byte := 1;
    var bytesRead, last := reader.ReadChunk(buffer);
    log, wire := Log([], []), [];
    var sessionDone := false;
    ghost var start := 0;
    StartRunning(file, numOfChunks, size);
    assert number == FollowingNumber(log) by { FirstIsOne(); }
    while !sessionDone
      invariant reader.data == file && start <= reader.position <= |file|
      invariant fresh(reader) && fresh(buffer) && buffer.Length == size
      invariant |wire| == |log.sent| == |log.replies|
      invariant forall k :: 0 <= k < |wire| ==> Sendable(log.sent[k]) && log.sent[k].uid == uid && wire[k] == Wire(log.sent[k])
      invariant forall k :: 0 <= k < |wire| ==> log.replies[k] == Classify(responses(k), log.sent[k].number)
      invariant !sessionDone ==>
                  && Running(file, numOfChunks, size, log, start) && number == FollowingNumber(log)
                  && bytesRead == reader.position - start <= size && buffer[..bytesRead] == file[start..reader.position]
                  && last == (if start == |file| then 1 else 0) && (start < |file| ==> bytesRead > 0)
                  && (reader.position < |file| ==> bytesRead == size)
      invariant sessionDone ==> Finished(file, numOfChunks, log)
      decreases !sessionDone, |file| - start
    {
      var request := EncodeDlRequest(uid, number, last, bytesRead, buffer);
      var message := Message(uid, number, last, buffer[..bytesRead]);
      var reply := Classify(responses(|log.sent|), number);
      SendNext(file, numOfChunks, size, log, start, reader.position, message, reply);
      log, wire := log.Add(message, reply), wire + [request[..]];
      if reply == Terminated {
        sessionDone := true;
        continue;
      }
      NumberAfter(log);
      number := NextNumber(number, reply);
      if last != 0 {
        sessionDone := true;
      } else {
        start := reader.position;
      }
      bytesRead, last := reader.ReadChunk(buffer);
    }
    AllAnswered(file, numOfChunks, log, responses);
  }

  lemma {:induction false} AllAnswered(file: bytes, n: nat, log: Log, responses: nat -> bytes)
    requires Finished(file, n, log)
    requires forall k :: 0 <= k < |log.sent| ==> log.replies[k] == Classify(responses(k), log.sent[k].number)
    ensures log.sent != [] && log.sent[0].number == 1 && forall k: nat :: k < |log.sent| ==> Answered(log, k, responses(k))
  {
    hide Answered, Classify;
    forall k: nat | k < |log.sent| ensures Answered(log, k, responses(k)) {
      SessionAnswered(file, n, log, k, responses(k));
    }
  }

  lemma FirstIsOne()
    ensures FollowingNumber(Log([], [])) == 1
  {
  }

  lemma NumberAfter(log: Log)
    requires |log.replies| == |log.sent| > 0
    ensures FollowingNumber(log) == NextNumber(log.sent[|log.sent| - 1].number, log.replies[|log.sent| - 1])
  {
  }

  lemma StartRunning(file: bytes, n: nat, size: nat)
    ensures Running(file, n, size, Log([], []), 0)
  {
    assert file[..0] == [];
  }

  lemma JoinedSnoc(sent: seq<Message>, m: Message)
    ensures Joined(sent + [m]) == Joined(sent) + m.chunk
  {
    assert (sent + [m])[..|sent|] == sent;
  }

  lemma SizeBound(length: nat, n: nat)
    requires n >= 1
    ensures 0 < length / n + 1 <= length + 1 && length < n * (length / n + 1)
  {
  }

  lemma {:induction false} CountBound(length: nat, n: nat, size: nat, count: nat, start: nat, position: nat)
    requires n >= 1 && size == length / n + 1 && count >= 1
    requires start == (count - 1) * size && start < length
    requires position <= length && (position < length ==> position - start == size)
    ensures position < length ==> position == count * size
    ensures count <= n
  {
    SizeBound(length, n);
    assert count * size == (count - 1) * size + size;
    Monotone(count - 1, n, size);
  }

  lemma Monotone(a: nat, b: nat, size: nat)
    ensures a >= b ==> a * size >= b * size
  {
  }

  // ----- what the receiver gets -----

  /** The chunks of the accepted messages, in order. */
  function Received(log: Log): bytes
    requires |log.replies| == |log.sent|
    decreases |log.sent|
  {
    if log.sent == [] then []
    else
      var n := |log.sent| - 1;
      Received(Log(log.sent[..n], log.replies[..n])) + if log.replies[n] == Accepted then log.sent[n].chunk else []
  }

  /** A refused message is not sent again: the receiver gets everything exactly if no data was refused. */
  lemma {:induction false} ReceivedIff(log: Log)
    requires |log.replies| == |log.sent|
    ensures |Received(log)| <= |Joined(log.sent)|
    ensures Received(log) == Joined(log.sent)
       <==> forall k :: 0 <= k < |log.sent| && log.sent[k].chunk != [] ==> log.replies[k] == Accepted
    decreases |log.sent|
  {
    if log.sent != [] {
      var n := |log.sent| - 1;
      var init := Log(log.sent[..n], log.replies[..n]);
      ReceivedIff(init);
      var chunk := log.sent[n].chunk;
      assert forall k :: 0 <= k < n ==> log.sent[k] == init.sent[k] && log.replies[k] == init.replies[k];
      if log.replies[n] == Accepted || chunk == [] {
        assert Received(log) == Received(init) + chunk;
        if Received(log) == Joined(log.sent) {
          SameTail(Received(init), Joined(init.sent), chunk);
        }
      }
    }
  }

  /**
   After a finished session the receiver has the file exactly if the whole file was sent and every
   message with data was accepted.
   */
  lemma {:induction false} SessionIff(file: bytes, n: nat, log: Log)
    requires Finished(file, n, log)
    ensures |log.replies| == |log.sent|
    ensures Received(log) == file
       <==> && Joined(log.sent) == file
            && forall k :: 0 <= k < |log.sent| && log.sent[k].chunk != [] ==> log.replies[k] == Accepted
  {
    hide Received, Joined, DataMessages;
    ReceivedIff(log);
    if Received(log) == file {
      assert Joined(log.sent) == file[..|Joined(log.sent)|];
    }
  }

  lemma SameTail(a: bytes, b: bytes, c: bytes)
    requires a + c == b + c
    ensures a == b
  {
    assert |a| == |b|;
    assert (a + c)[..|a|] == a && (b + c)[..|b|] == b;
  }
}
