/** The sending "application" of examples/tcp/tcp-large-transfer.cc: a callback that writes a
fixed pattern into whatever buffer space the socket has, resuming where it stopped. */
module StreamWriter {

  const TOTAL_TX_BYTES: nat := 2000000
  const WRITE_SIZE: nat := 1040

  /** The `k`-th byte of the stream. */
  function Pattern(k: nat): nat {
    97 + k % 26
  }

  ghost function Prefix(n: nat): (s: seq<nat>)
    ensures |s| == n && forall k :: 0 <= k < n ==> s[k] == Pattern(k)
  {
    seq(n, k requires 0 <= k < n => Pattern(k))
  }

  /** The write size is a multiple of 26, so the buffer can be reused at the same phase. */
  lemma PatternRepeats(k: nat, j: nat)
    ensures Pattern(k % WRITE_SIZE + j) == Pattern(k + j)
  {
  }

  /** One call of `Send`: how many bytes had been accepted before, the room the socket reported,
      how many bytes it was asked to take, and how many it took (negative if it failed). */
  datatype Attempt = Attempt(sent: nat, room: nat, asked: nat, taken: int)

  /** The request is as large as it can be: the rest of the buffer, all that is left of the
      stream, or all the room there is, whichever is least. */
  ghost predicate LargestRequest(a: Attempt) {
    && a.sent % 1040 + a.asked <= 1040 && a.sent + a.asked <= 2000000 && a.asked <= a.room
    && (a.sent % 1040 + a.asked == 1040 || a.sent + a.asked == 2000000 || a.asked == a.room)
  }

  /** A sending socket.  What it accepts, and how much room it says it has, is up to it. */
  class Socket {
    var accepted: seq<nat>   // every byte it took, in order
    var attempts: seq<Attempt>
    var failures: nat
    var sendsAfterClose: nat
    var available: nat
    var connected: bool
    var closed: bool

    constructor ()
      ensures accepted == [] && attempts == [] && failures == 0 && sendsAfterClose == 0 && !closed && !connected
    {
      accepted, attempts, failures, sendsAfterClose, connected, closed := [], [], 0, 0, false, false;
      available := *;
    }

    method Connect()
      modifies this`connected, this`available
      ensures connected && accepted == old(accepted) && closed == old(closed) && sendsAfterClose == old(sendsAfterClose)
    {
      connected := true;
      available := *;
    }

    /** Buffer space changes between callbacks. */
    method Elapse(room: nat)
      modifies this`available
      ensures available == room
    {
      available := room;
    }

    /** Fails, or takes at least one and at most `toWrite` bytes from `offset` on. */
    method Send(buffer: array<nat>, offset: nat, toWrite: nat) returns (amountSent: int)
      requires 0 < toWrite <= available && offset + toWrite <= buffer.Length
      modifies this`accepted, this`attempts, this`failures, this`sendsAfterClose, this`available
      ensures amountSent <= toWrite && amountSent != 0
      ensures attempts == old(attempts) + [Attempt(|old(accepted)|, old(available), toWrite, amountSent)]
      ensures failures == old(failures) + if amountSent < 0 then 1 else 0
      ensures accepted == old(accepted) + if amountSent < 0 then [] else buffer[offset..offset + amountSent]
      ensures closed == old(closed) && connected == old(connected)
      ensures sendsAfterClose == old(sendsAfterClose) + if old(closed) then 1 else 0
    {
      amountSent :| amountSent <= toWrite && amountSent != 0;
      attempts := attempts + [Attempt(|accepted|, available, toWrite, amountSent)];
      if amountSent < 0 { failures := failures + 1; }
      if amountSent > 0 { accepted := accepted + buffer[offset..offset + amountSent]; }
      if closed { sendsAfterClose := sendsAfterClose + 1; }
      available := *;
    }

    method Close()
      modifies this`closed
      ensures closed
    {
      closed := true;
    }
  }

  class Sender {
    const data: array<nat>
    const socket: Socket
    var currentTxBytes: nat

    constructor ()
      ensures Valid() && socket.accepted == [] && socket.failures == 0 && !socket.closed
      ensures fresh(data) && fresh(socket)
    {
      var buffer := new nat[WRITE_SIZE];
      for i := 0 to WRITE_SIZE
        invariant forall j :: 0 <= j < i ==> buffer[j] == Pattern(j)
      {
        buffer[i] := 97 + i % 26;
      }
      var s := new Socket();
      data, socket, currentTxBytes := buffer, s, 0;
    }

    /** What has been accepted is the prefix of the pattern that the counter says, the socket
        is closed only if that is all of it, nothing was sent after closing, and every request
        was as large as it could be. */
    ghost predicate Valid()
      reads this, data, socket
    {
      && data.Length == WRITE_SIZE
      && (forall j :: 0 <= j < WRITE_SIZE ==> data[j] == Pattern(j))
      && currentTxBytes <= TOTAL_TX_BYTES
      && socket.accepted == Prefix(currentTxBytes)
      && socket.sendsAfterClose == 0
      && (forall a :: a in socket.attempts ==> LargestRequest(a))
      && (socket.closed ==> currentTxBytes == TOTAL_TX_BYTES)
    }

    method StartFlow()
      requires Valid()
      modifies this, socket
      ensures Valid() && socket.connected
      ensures socket.closed <==> currentTxBytes == TOTAL_TX_BYTES
      ensures old(socket.accepted) <= socket.accepted && socket.failures <= old(socket.failures) + 1
      ensures socket.closed || socket.available == 0 || socket.failures == old(socket.failures) + 1
    {
      socket.Connect();
      WriteUntilBufferFull();
    }

    /** The send callback.  It always returns, and only with the socket closed, without room, or
        after a failed send; it leaves the socket closed exactly when all bytes have been
        accepted.  If there was room and something left, either a send failed or more bytes
        have been accepted. */
    method WriteUntilBufferFull()
      requires Valid()
      modifies this, socket
      ensures Valid() && socket.connected == old(socket.connected)
      ensures socket.closed <==> currentTxBytes == TOTAL_TX_BYTES
      ensures old(socket.accepted) <= socket.accepted
      ensures old(socket.failures) <= socket.failures <= old(socket.failures) + 1
      ensures socket.closed || socket.available == 0 || socket.failures == old(socket.failures) + 1
      ensures old(socket.available) > 0 && old(currentTxBytes) < TOTAL_TX_BYTES ==>
                |socket.accepted| > |old(socket.accepted)| || socket.failures == old(socket.failures) + 1
    {
      hide LargestRequest;
      while currentTxBytes < TOTAL_TX_BYTES && socket.available > 0
        invariant Valid() && socket.connected == old(socket.connected)
        invariant old(socket.accepted) <= socket.accepted && socket.failures == old(socket.failures)
        invariant currentTxBytes == old(currentTxBytes) ==> socket.available == old(socket.available)
        invariant currentTxBytes >= old(currentTxBytes)
        decreases TOTAL_TX_BYTES - currentTxBytes
      {
        var left := TOTAL_TX_BYTES - currentTxBytes;
        var dataOffset := currentTxBytes % WRITE_SIZE;
        var toWrite := WRITE_SIZE - dataOffset;
        if left < toWrite { toWrite := left; }
        if socket.available < toWrite { toWrite := socket.available; }
        ghost var before := currentTxBytes;
        Largest(before, socket.available, toWrite);
        var amountSent := socket.Send(data, dataOffset, toWrite);
        if amountSent < 0 { return; }
        Append(data[..], before, amountSent);
        currentTxBytes := currentTxBytes + amountSent;
      }
      if currentTxBytes >= TOTAL_TX_BYTES {
        socket.Close();
      }
    }
  }

  lemma Largest(sent: nat, room: nat, asked: nat)
    requires sent < TOTAL_TX_BYTES
    requires asked <= WRITE_SIZE - sent % WRITE_SIZE && asked <= TOTAL_TX_BYTES - sent && asked <= room
    requires asked == WRITE_SIZE - sent % WRITE_SIZE || asked == TOTAL_TX_BYTES - sent || asked == room
    ensures forall taken :: LargestRequest(Attempt(sent, room, asked, taken))
  {
  }

  lemma Append(data: seq<nat>, sent: nat, amount: nat)
    requires |data| == WRITE_SIZE && forall j :: 0 <= j < WRITE_SIZE ==> data[j] == Pattern(j)
    requires sent % WRITE_SIZE + amount <= WRITE_SIZE
    ensures Prefix(sent) + data[sent % WRITE_SIZE..sent % WRITE_SIZE + amount] == Prefix(sent + amount)
  {
    var chunk := data[sent % WRITE_SIZE..sent % WRITE_SIZE + amount];
    forall j | 0 <= j < amount
      ensures chunk[j] == Pattern(sent + j)
    {
      PatternRepeats(sent, j);
    }
  }

  /** The callbacks, of the first `n`, that find room. */
  ghost function WithRoom(rooms: seq<nat>, n: nat): set<nat>
    requires n <= |rooms|
  {
    set i: nat | i < n && rooms[i] > 0
  }

  lemma WithRoomStep(rooms: seq<nat>, n: nat)
    requires n < |rooms|
    ensures |WithRoom(rooms, n + 1)| == |WithRoom(rooms, n)| + if rooms[n] > 0 then 1 else 0
  {
    if rooms[n] > 0 {
      assert WithRoom(rooms, n + 1) == WithRoom(rooms, n) + {n};
    } else {
      assert WithRoom(rooms, n + 1) == WithRoom(rooms, n);
    }
  }

  /** A whole transfer: the flow starts, and then callbacks arrive, the `i`-th with room for
      `rooms[i]` bytes.  What is accepted is always a prefix of the alphabet repeated; it is
      all 2000000 bytes of it if and only if the socket was closed; and every callback that
      finds room brings a byte more or a failed send, so that enough of them complete it. */
  method Transfer(rooms: seq<nat>) returns (sender: Sender)
    ensures var socket := sender.socket;
            && |socket.accepted| <= 2000000
            && (forall k :: 0 <= k < |socket.accepted| ==> socket.accepted[k] == 97 + k % 26)
            && (socket.closed <==> |socket.accepted| == 2000000)
            && (socket.closed || |socket.accepted| + socket.failures >= |set i: nat | i < |rooms| && rooms[i] > 0|)
            && (|set i: nat | i < |rooms| && rooms[i] > 0| >= 2000000 + socket.failures ==> socket.closed)
            && socket.sendsAfterClose == 0
            && forall a :: a in socket.attempts ==> LargestRequest(a)
  {
    assert WithRoom(rooms, 0) == {};
    hide LargestRequest, WithRoom;
    sender := new Sender();
    sender.StartFlow();
    for i := 0 to |rooms|
      invariant sender.Valid() && fresh(sender) && fresh(sender.socket)
      invariant sender.socket.closed <==> sender.currentTxBytes == TOTAL_TX_BYTES
      invariant sender.socket.closed || |sender.socket.accepted| + sender.socket.failures >= |WithRoom(rooms, i)|
    {
      WithRoomStep(rooms, i);
      sender.socket.Elapse(rooms[i]);
      sender.WriteUntilBufferFull();
    }
    AllWithRoom(rooms);
  }

  lemma AllWithRoom(rooms: seq<nat>)
    ensures WithRoom(rooms, |rooms|) == set i: nat | i < |rooms| && rooms[i] > 0
  {
  }
}
