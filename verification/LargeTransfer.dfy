/** The sending side of the large TCP transfer (examples/tcp/tcp-large-transfer.cc): a callback
    that writes a cyclic alphabet in chunks until the socket has no free space.

    The socket is all that the callback sees of the network: before each write it reports some
    free space, and of each write it takes some part or fails.  Both are arbitrary. */
module LargeTransfer {
  const TOTAL_TX_BYTES := 2000000
  const WRITE_SIZE := 1040

  // The k-th byte of the transfer: a to z, over and over.
  function Letter(k: nat): nat {
    97 + k % 26
  }

  // The first n bytes of the transfer.
  function Stream(n: nat): seq<nat> {
    seq(n, k requires 0 <= k < n => Letter(k))
  }

  // What the socket has to say to one write: its free space, and how much of the write it takes
  // (negative for a failure).
  datatype Answer = Answer(free: nat, sent: int)

  function Min(a: nat, b: nat): nat {
    if a <= b then a else b
  }

  class Socket {
    var answers: seq<Answer>
    var accepted: seq<nat>
    var closed: bool

    constructor (answers: seq<Answer>)
      ensures this.answers == answers && accepted == [] && !closed
    {
      this.answers, accepted, closed := answers, [], false;
    }

    function TxAvailable(): nat
      reads this
    {
      if answers == [] then 0 else answers[0].free
    }

    method Send(bytes: seq<nat>) returns (amountSent: int)
      requires answers != []
      modifies this`answers, this`accepted
      ensures answers == old(answers[1..])
      ensures amountSent == if old(answers[0].sent) < 0 then -1 else Min(old(answers[0].sent), |bytes|)
      ensures accepted == old(accepted) + if amountSent < 0 then [] else bytes[..amountSent]
    {
      var sent := answers[0].sent;
      answers := answers[1..];
      amountSent := if sent < 0 then -1 else Min(sent, |bytes|);
      if amountSent > 0 {
        accepted := accepted + bytes[..amountSent];
      }
    }

    method Close()
      modifies this`closed
      ensures closed
    {
      closed := true;
    }
  }

  // How far one call of the callback gets, whether it ended in a failure, and what is unanswered.
  datatype Turn = Turn(sent: nat, failed: bool, answers: seq<Answer>)

  function TakeTurn(sent: nat, answers: seq<Answer>): (t: Turn)
    requires sent <= TOTAL_TX_BYTES
    ensures sent <= t.sent <= TOTAL_TX_BYTES
    ensures !t.failed && t.sent < TOTAL_TX_BYTES ==> t.answers == [] || t.answers[0].free == 0
    decreases |answers|
  {
    if sent == TOTAL_TX_BYTES || answers == [] || answers[0].free == 0 then Turn(sent, false, answers)
    else if answers[0].sent < 0 then Turn(sent, true, answers[1..])
    else TakeTurn(sent + Min(answers[0].sent, ToWrite(sent, answers[0].free)), answers[1..])
  }

  // Up to the end of the buffer, of the transfer and of the free space.
  function ToWrite(sent: nat, free: nat): (n: nat)
    requires sent <= TOTAL_TX_BYTES
    ensures sent % WRITE_SIZE + n <= WRITE_SIZE && sent + n <= TOTAL_TX_BYTES && n <= free
    ensures sent < TOTAL_TX_BYTES && free > 0 ==> n > 0
  {
    Min(Min(WRITE_SIZE - sent % WRITE_SIZE, TOTAL_TX_BYTES - sent), free)
  }

  // No larger write would do.
  lemma WritesMost(sent: nat, free: nat, n: nat)
    requires sent <= TOTAL_TX_BYTES
    ensures n <= ToWrite(sent, free) <==>
      sent % WRITE_SIZE + n <= WRITE_SIZE && sent + n <= TOTAL_TX_BYTES && n <= free
  {
  }

  // The buffer holds whole alphabets, so reading on at the offset continues the stream.
  lemma OffsetContinues(sent: nat, i: nat)
    requires sent % WRITE_SIZE + i < WRITE_SIZE
    ensures Letter(sent % WRITE_SIZE + i) == Letter(sent + i)
  {
    var rounds := sent / WRITE_SIZE;
    assert sent + i == (sent % WRITE_SIZE + i) + 26 * (40 * rounds);
  }

  lemma StreamGrows(sent: nat, bytes: seq<nat>, n: nat)
    requires n <= |bytes| && forall i :: 0 <= i < |bytes| ==> bytes[i] == Letter(sent + i)
    ensures Stream(sent) + bytes[..n] == Stream(sent + n)
  {
  }

  class Sender {
    const data: array<nat>
    var currentTxBytes: nat

    constructor ()
      ensures fresh(data) && HoldsAlphabets() && currentTxBytes == 0
    {
      data := new nat[WRITE_SIZE];
      currentTxBytes := 0;
      new;
      for i := 0 to WRITE_SIZE
        invariant currentTxBytes == 0 && forall k :: 0 <= k < i ==> data[k] == Letter(k)
      {
        data[i] := 97 + i % 26;
      }
    }

    predicate HoldsAlphabets()
      reads data
    {
      data.Length == WRITE_SIZE && forall k :: 0 <= k < WRITE_SIZE ==> data[k] == Letter(k)
    }

    // The socket has taken exactly the beginning of the transfer, up to the counter.
    predicate InStep(socket: Socket)
      reads this, data, socket
    {
      HoldsAlphabets() && currentTxBytes <= TOTAL_TX_BYTES && socket.accepted == Stream(currentTxBytes)
    }

    // Every call, whatever the socket answers, goes on where the last one stopped.
    method WriteUntilBufferFull(socket: Socket)
      requires InStep(socket)
      modifies this`currentTxBytes, socket
      ensures InStep(socket)
      ensures currentTxBytes == TakeTurn(old(currentTxBytes), old(socket.answers)).sent
      ensures socket.answers == TakeTurn(old(currentTxBytes), old(socket.answers)).answers
      ensures socket.closed <==> old(socket.closed) || !TakeTurn(old(currentTxBytes), old(socket.answers)).failed
    {
      while currentTxBytes < TOTAL_TX_BYTES && socket.TxAvailable() > 0
        invariant InStep(socket) && socket.closed == old(socket.closed)
        invariant TakeTurn(currentTxBytes, socket.answers) == TakeTurn(old(currentTxBytes), old(socket.answers))
        decreases |socket.answers|
      {
        var left := TOTAL_TX_BYTES - currentTxBytes;
        var dataOffset := currentTxBytes % WRITE_SIZE;
        var toWrite := WRITE_SIZE - dataOffset;
        toWrite := Min(toWrite, left);
        toWrite := Min(toWrite, socket.TxAvailable());
        var bytes := data[dataOffset..dataOffset + toWrite];
        forall i | 0 <= i < toWrite ensures bytes[i] == Letter(currentTxBytes + i) {
          OffsetContinues(currentTxBytes, i);
        }
        var amountSent := socket.Send(bytes);
        if amountSent < 0 {
          return;
        }
        StreamGrows(currentTxBytes, bytes, amountSent);
        currentTxBytes := currentTxBytes + amountSent;
      }
      socket.Close();
    }

    // Connecting is abstract; setting the callback is what makes the calls of `Flow`.
    method StartFlow(socket: Socket)
      requires InStep(socket)
      modifies this`currentTxBytes, socket
      ensures InStep(socket)
      ensures currentTxBytes == TakeTurn(old(currentTxBytes), old(socket.answers)).sent
      ensures socket.closed <==> old(socket.closed) || !TakeTurn(old(currentTxBytes), old(socket.answers)).failed
    {
      WriteUntilBufferFull(socket);
    }
  }

  // ----- The whole flow: the start and then any number of callbacks

  // How much is sent after the calls so far, each with its own answers of the socket.
  function SentAfter(calls: seq<seq<Answer>>): (n: nat)
    ensures n <= TOTAL_TX_BYTES
  {
    if calls == [] then 0 else TakeTurn(SentAfter(calls[..|calls| - 1]), calls[|calls| - 1]).sent
  }

  ghost predicate ClosedAfter(calls: seq<seq<Answer>>) {
    exists i :: 0 <= i < |calls| && !TakeTurn(SentAfter(calls[..i]), calls[i]).failed
  }

  // Over any sequence of calls the socket takes the bytes of the transfer in order, each once.
  method Flow(calls: seq<seq<Answer>>) returns (sender: Sender, socket: Socket)
    requires calls != []
    ensures sender.InStep(socket) && sender.currentTxBytes == SentAfter(calls)
    ensures socket.accepted == Stream(SentAfter(calls))
    ensures socket.closed <==> ClosedAfter(calls)
  {
    sender := new Sender();
    socket := new Socket(calls[0]);
    sender.StartFlow(socket);
    for i := 1 to |calls|
      invariant sender.InStep(socket) && fresh(socket) && fresh(sender) && fresh(sender.data)
      invariant sender.currentTxBytes == SentAfter(calls[..i])
      invariant socket.closed <==> ClosedAfter(calls[..i])
    {
      socket.answers := calls[i];
      sender.WriteUntilBufferFull(socket);
      OneMoreCall(calls, i);
    }
    assert calls[..|calls|] == calls;
  }

  lemma OneMoreCall(calls: seq<seq<Answer>>, i: nat)
    requires i < |calls|
    ensures SentAfter(calls[..i + 1]) == TakeTurn(SentAfter(calls[..i]), calls[i]).sent
    ensures ClosedAfter(calls[..i + 1]) <==>
      ClosedAfter(calls[..i]) || !TakeTurn(SentAfter(calls[..i]), calls[i]).failed
  {
    assert calls[..i + 1][..i] == calls[..i];
    forall k | 0 <= k <= i ensures calls[..i + 1][..k] == calls[..k] && (k < i ==> calls[..i][..k] == calls[..k]) {
    }
    if ClosedAfter(calls[..i + 1]) {
      var k :| 0 <= k <= i && !TakeTurn(SentAfter(calls[..i + 1][..k]), calls[..i + 1][k]).failed;
      if k < i {
        assert !TakeTurn(SentAfter(calls[..i][..k]), calls[..i][k]).failed;
      }
    }
    if ClosedAfter(calls[..i]) {
      var k :| 0 <= k < i && !TakeTurn(SentAfter(calls[..i][..k]), calls[..i][k]).failed;
      assert !TakeTurn(SentAfter(calls[..i + 1][..k]), calls[..i + 1][k]).failed;
    }
    if !TakeTurn(SentAfter(calls[..i]), calls[i]).failed {
      assert !TakeTurn(SentAfter(calls[..i + 1][..i]), calls[..i + 1][i]).failed;
    }
  }

  // ----- Closing too early

  // The first answer without free space.
  function FirstFull(answers: seq<Answer>): (n: nat)
    ensures n <= |answers|
    ensures n < |answers| ==> answers[n].free == 0
    ensures forall i :: 0 <= i < n ==> answers[i].free > 0
  {
    if answers == [] || answers[0].free == 0 then 0 else 1 + FirstFull(answers[1..])
  }

  predicate NoFailure(answers: seq<Answer>) {
    forall i :: 0 <= i < |answers| ==> answers[i].sent >= 0
  }

  // A call closes the socket with bytes unsent if and only if no write fails before the socket
  // first reports no free space, and the writes up to there do not complete the transfer.
  lemma {:induction false} ClosesEarlyIff(sent: nat, answers: seq<Answer>)
    requires sent <= TOTAL_TX_BYTES
    ensures var t, n := TakeTurn(sent, answers), FirstFull(answers);
      !t.failed && t.sent < TOTAL_TX_BYTES <==>
      NoFailure(answers[..n]) && TakeTurn(sent, answers[..n]).sent < TOTAL_TX_BYTES
    decreases |answers|
  {
    var n := FirstFull(answers);
    if sent < TOTAL_TX_BYTES && n > 0 {
      var front := answers[..n];
      assert front[0] == answers[0] && front[1..] == answers[1..][..n - 1];
      NoFailureRest(front);
      if answers[0].sent >= 0 {
        ClosesEarlyIff(AfterWrite(sent, answers[0]), answers[1..]);
        OneWrite(sent, answers);
        OneWrite(sent, front);
      }
    }
  }

  function AfterWrite(sent: nat, answer: Answer): (sent': nat)
    requires sent <= TOTAL_TX_BYTES && answer.sent >= 0
    ensures sent' <= TOTAL_TX_BYTES
  {
    sent + Min(answer.sent, ToWrite(sent, answer.free))
  }

  lemma OneWrite(sent: nat, answers: seq<Answer>)
    requires sent < TOTAL_TX_BYTES && answers != [] && answers[0].free > 0 && answers[0].sent >= 0
    ensures TakeTurn(sent, answers) == TakeTurn(AfterWrite(sent, answers[0]), answers[1..])
  {
  }

  lemma NoFailureRest(answers: seq<Answer>)
    requires answers != []
    ensures NoFailure(answers) <==> answers[0].sent >= 0 && NoFailure(answers[1..])
  {
    assert forall i :: 0 < i < |answers| ==> answers[i] == answers[1..][i - 1];
  }

  // At most what the socket would take of the free space it reports.
  function Offered(answers: seq<Answer>): nat {
    if answers == [] then 0
    else (if answers[0].sent < 0 then 0 else Min(answers[0].sent, answers[0].free)) + Offered(answers[1..])
  }

  lemma {:induction false} TakesNoMore(sent: nat, answers: seq<Answer>)
    requires sent <= TOTAL_TX_BYTES
    ensures TakeTurn(sent, answers).sent <= sent + Offered(answers)
    decreases |answers|
  {
    if answers != [] && answers[0].sent >= 0 && sent < TOTAL_TX_BYTES && answers[0].free > 0 {
      TakesNoMore(sent + Min(answers[0].sent, ToWrite(sent, answers[0].free)), answers[1..]);
    }
  }

  // So it does if no write fails and all the answers before the first lack of space together
  // take too little ...
  lemma TooLittleCloses(sent: nat, answers: seq<Answer>)
    requires sent <= TOTAL_TX_BYTES && NoFailure(answers[..FirstFull(answers)])
    requires Offered(answers[..FirstFull(answers)]) < TOTAL_TX_BYTES - sent
    ensures !TakeTurn(sent, answers).failed && TakeTurn(sent, answers).sent < TOTAL_TX_BYTES
  {
    ClosesEarlyIff(sent, answers);
    TakesNoMore(sent, answers[..FirstFull(answers)]);
  }

  // ... and it does not if one answer for each byte left finds space and takes something.
  lemma {:induction false} ProgressCompletes(sent: nat, answers: seq<Answer>)
    requires sent <= TOTAL_TX_BYTES && TOTAL_TX_BYTES - sent <= |answers|
    requires forall i :: 0 <= i < TOTAL_TX_BYTES - sent ==> answers[i].free > 0 && answers[i].sent > 0
    ensures !TakeTurn(sent, answers).failed && TakeTurn(sent, answers).sent == TOTAL_TX_BYTES
    decreases |answers|
  {
    if sent < TOTAL_TX_BYTES {
      assert forall i :: 0 <= i < TOTAL_TX_BYTES - sent - 1 ==> answers[1..][i] == answers[i + 1];
      ProgressCompletes(sent + Min(answers[0].sent, ToWrite(sent, answers[0].free)), answers[1..]);
    }
  }

  // Five bytes taken, no space left: closed with almost everything unsent.
  lemma ClosesAfterFive()
    ensures TakeTurn(0, [Answer(5, 5)]) == Turn(5, false, [])
  {
  }
}
