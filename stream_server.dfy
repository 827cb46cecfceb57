/**
 * The streaming side's TCP server: the per-client send cycle that writes the
 * slot's frame behind a four-byte length, the send loop that repeats it, and
 * the accept loop that serves clients one after another.
 */
module StreamServer {
  import opened Wrappers
  import opened Seqs
  import opened JavaIo
  import opened LatestFrame

  /** The bytes one send cycle writes for the snapshot it took. */
  function Message(snapshot: Option<ByteArray>): seq<Byte>
  {
    match snapshot
    case None => []
    case Some(jpeg) => IntBytes(|jpeg|) + jpeg
  }

  /**
   * A null snapshot writes nothing; an `n`-byte frame writes exactly `4 + n`
   * bytes: `n` high byte first, then the frame unchanged.
   */
  lemma MessageLayout(snapshot: Option<ByteArray>)
    ensures snapshot.None? ==> Message(snapshot) == []
    ensures snapshot.Some? ==> |Message(snapshot)| == 4 + |snapshot.value|
    ensures snapshot.Some? ==> BigEndianValue(Message(snapshot)[..4]) == |snapshot.value|
    ensures snapshot.Some? ==> Message(snapshot)[4..] == snapshot.value
  {
    if snapshot.Some? {
      assert Message(snapshot)[..4] == IntBytes(|snapshot.value|);
    }
  }

  /** What a client receives over a run of cycles: each cycle's message, in cycle order. */
  function Transmit(snapshots: seq<Option<ByteArray>>): seq<Byte>
  {
    if snapshots == [] then [] else Message(snapshots[0]) + Transmit(snapshots[1..])
  }

  /** How many of the snapshots held a frame. */
  function FrameCount(snapshots: seq<Option<ByteArray>>): nat
  {
    if snapshots == [] then 0 else (if snapshots[0].Some? then 1 else 0) + FrameCount(snapshots[1..])
  }

  /** How many payload bytes the snapshots' frames hold together. */
  function PayloadBytes(snapshots: seq<Option<ByteArray>>): nat
  {
    if snapshots == [] then 0
    else (if snapshots[0].Some? then |snapshots[0].value| else 0) + PayloadBytes(snapshots[1..])
  }

  /** Running more cycles only appends to what the earlier cycles sent. */
  lemma {:induction false} TransmitAppend(a: seq<Option<ByteArray>>, b: seq<Option<ByteArray>>)
    ensures Transmit(a + b) == Transmit(a) + Transmit(b)
  {
    if a == [] {
      assert a + b == b;
    } else {
      assert (a + b)[1..] == a[1..] + b;
      TransmitAppend(a[1..], b);
    }
  }

  /** Each frame costs its payload plus a four-byte prefix; null cycles cost nothing. */
  lemma {:induction false} TransmitLength(snapshots: seq<Option<ByteArray>>)
    ensures |Transmit(snapshots)| == 4 * FrameCount(snapshots) + PayloadBytes(snapshots)
  {
    if snapshots != [] {
      TransmitLength(snapshots[1..]);
    }
  }

  /** At most one frame message per cycle. */
  lemma {:induction false} FrameCountBound(snapshots: seq<Option<ByteArray>>)
    ensures FrameCount(snapshots) <= |snapshots|
    ensures FrameCount(snapshots) == |snapshots| <==> forall i :: 0 <= i < |snapshots| ==> snapshots[i].Some?
  {
    if snapshots != [] {
      FrameCountBound(snapshots[1..]);
      if FrameCount(snapshots) == |snapshots| {
        forall i | 0 <= i < |snapshots| ensures snapshots[i].Some? {
          if i > 0 { assert snapshots[i] == snapshots[1..][i - 1]; }
        }
      }
      if forall i :: 0 <= i < |snapshots| ==> snapshots[i].Some? {
        assert forall i :: 0 <= i < |snapshots[1..]| ==> snapshots[1..][i] == snapshots[i + 1];
      }
    }
  }

  /**
   * The snapshot each cycle of a send loop takes when it starts with the slot
   * holding `start` and the analyzer stores `during[i]` while cycle `i` writes and sleeps.
   */
  function Snapshots(start: Option<ByteArray>, during: seq<seq<ByteArray>>): (s: seq<Option<ByteArray>>)
    ensures |s| == |during|
    decreases |during|
  {
    if during == [] then [] else [start] + Snapshots(LatestOf(start, during[0]), during[1..])
  }

  /** Cycle `i` sends whatever the slot held last after everything stored during cycles before it. */
  lemma {:induction false} SnapshotIsLatest(start: Option<ByteArray>, during: seq<seq<ByteArray>>, i: nat)
    requires i < |during|
    ensures Snapshots(start, during)[i] == LatestOf(start, Flatten(during[..i]))
    decreases i
  {
    if i == 0 {
      assert during[..0] == [];
    } else {
      SnapshotIsLatest(LatestOf(start, during[0]), during[1..], i - 1);
      assert during[..i] == [during[0]] + during[1..][..i - 1];
      FlattenAppend([during[0]], during[1..][..i - 1]);
      assert Flatten([during[0]]) == during[0] + Flatten([]);
      LatestOfAppend(start, during[0], Flatten(during[1..][..i - 1]));
    }
  }

  /** Reading does not clear the slot: with nothing stored during a cycle, the next cycle sends the same frame again. */
  lemma SnapshotRepeats(start: Option<ByteArray>, during: seq<seq<ByteArray>>, i: nat)
    requires i + 1 < |during| && during[i] == []
    ensures Snapshots(start, during)[i + 1] == Snapshots(start, during)[i]
  {
    SnapshotIsLatest(start, during, i);
    SnapshotIsLatest(start, during, i + 1);
    assert during[..i + 1] == during[..i] + [during[i]];
    FlattenSnoc(during[..i], during[i]);
    assert Flatten(during[..i]) + during[i] == Flatten(during[..i]);
  }

  /** What one more cycle adds to the frames stored during a send loop. */
  lemma StoredStep(start: Option<ByteArray>, cycles: seq<seq<ByteArray>>, i: nat)
    requires i < |cycles|
    ensures Flatten(cycles[..i + 1]) == Flatten(cycles[..i]) + cycles[i]
    ensures LatestOf(start, Flatten(cycles[..i + 1])) == LatestOf(LatestOf(start, Flatten(cycles[..i])), cycles[i])
  {
    assert cycles[..i + 1] == cycles[..i] + [cycles[i]];
    FlattenSnoc(cycles[..i], cycles[i]);
    LatestOfAppend(start, Flatten(cycles[..i]), cycles[i]);
  }

  /** One more cycle appends its message to what the client has received. */
  lemma TransmitSnoc(snapshots: seq<Option<ByteArray>>, i: nat)
    requires i < |snapshots|
    ensures Transmit(snapshots[..i + 1]) == Transmit(snapshots[..i]) + Message(snapshots[i])
  {
    assert snapshots[..i + 1] == snapshots[..i] + [snapshots[i]];
    TransmitAppend(snapshots[..i], [snapshots[i]]);
    assert Transmit([snapshots[i]]) == Message(snapshots[i]) + Transmit([]);
  }

  /**
   * One pass of the `while (!socket.isClosed)` body: snapshot the slot once and,
   * if it held a frame, write its length and then its bytes. `during` are the
   * frames the analyzer stores meanwhile; they land between the two writes,
   * and the message still describes the snapshot alone.
   */
  method SendCycle(slot: FrameSlot, out: DataOutputStream, during: seq<ByteArray>)
    requires slot.Valid()
    modifies slot, out
    ensures slot.Valid()
    ensures slot.published == old(slot.published) + during
    ensures slot.currentJpeg == LatestOf(old(slot.currentJpeg), during)
    ensures out.written == old(out.written) + Message(old(slot.currentJpeg))
  {
    var jpegData := slot.Peek();
    if jpegData.Some? {
      out.WriteInt(|jpegData.value|);
      PublishEach(slot, during);
      out.Write(jpegData.value);
    } else {
      PublishEach(slot, during);
    }
  }

  /**
   * A client's send loop: the `DataOutputStream` opened on the accepted socket,
   * then one cycle per element of `cycles` (the frames stored during that
   * cycle) until the connection fails. The client receives the concatenated
   * messages of the successive snapshots.
   */
  method SendLoop(slot: FrameSlot, cycles: seq<seq<ByteArray>>) returns (wire: seq<Byte>)
    requires slot.Valid()
    modifies slot
    ensures slot.Valid()
    ensures slot.published == old(slot.published) + Flatten(cycles)
    ensures slot.currentJpeg == LatestOf(old(slot.currentJpeg), Flatten(cycles))
    ensures wire == Transmit(Snapshots(old(slot.currentJpeg), cycles))
  {
    ghost var start := slot.currentJpeg;
    ghost var history := slot.published;
    ghost var snaps := Snapshots(start, cycles);
    var out := new DataOutputStream();
    for i := 0 to |cycles|
      invariant slot.Valid()
      invariant slot.published == history + Flatten(cycles[..i])
      invariant slot.currentJpeg == LatestOf(start, Flatten(cycles[..i]))
      invariant out.written == Transmit(snaps[..i])
    {
      SendNext(slot, out, cycles, i, start, history);
    }
    assert cycles[..|cycles|] == cycles;
    assert snaps[..|cycles|] == snaps;
    wire := out.written;
  }

  /** Cycle `i` of a send loop that started with the slot holding `start` after the history `history`. */
  method SendNext(slot: FrameSlot, out: DataOutputStream, cycles: seq<seq<ByteArray>>, i: nat,
                  ghost start: Option<ByteArray>, ghost history: seq<ByteArray>)
    requires slot.Valid() && i < |cycles|
    requires slot.published == history + Flatten(cycles[..i])
    requires slot.currentJpeg == LatestOf(start, Flatten(cycles[..i]))
    requires out.written == Transmit(Snapshots(start, cycles)[..i])
    modifies slot, out
    ensures slot.Valid()
    ensures slot.published == history + Flatten(cycles[..i + 1])
    ensures slot.currentJpeg == LatestOf(start, Flatten(cycles[..i + 1]))
    ensures out.written == Transmit(Snapshots(start, cycles)[..i + 1])
  {
    StoredStep(start, cycles, i);
    SnapshotIsLatest(start, cycles, i);
    TransmitSnoc(Snapshots(start, cycles), i);
    SnocAssociates(history, Flatten(cycles[..i]), cycles[i]);
    SendCycle(slot, out, cycles[i]);
  }

  /** One accepted connection: what the analyzer stores while `accept` waits, then its send loop's cycles. */
  datatype Client = Client(whileAccepting: seq<ByteArray>, cycles: seq<seq<ByteArray>>)

  /** Every frame the analyzer stores while clients `from` up to (not including) `to` are awaited and served. */
  function PublishedBetween(clients: seq<Client>, from: nat, to: nat): seq<ByteArray>
    requires from <= to <= |clients|
    decreases (to as int) - (from as int)
  {
    if from == to then []
    else clients[from].whileAccepting + Flatten(clients[from].cycles) + PublishedBetween(clients, from + 1, to)
  }

  /** Connection events of the accept loop. */
  datatype ServerEvent = Accepted(client: nat) | Closed(client: nat)

  /** The accept loop's events after serving `n` clients: each accepted, then closed, in turn. */
  function InTurnLog(n: nat): (log: seq<ServerEvent>)
    ensures |log| == 2 * n
  {
    if n == 0 then [] else InTurnLog(n - 1) + [Accepted(n - 1), Closed(n - 1)]
  }

  /** Connections accepted and not yet closed after the events of `log`. */
  function OpenConnections(log: seq<ServerEvent>): int
  {
    if log == [] then 0
    else OpenConnections(log[..|log| - 1]) + (if log[|log| - 1].Accepted? then 1 else -1)
  }

  /** Client `c` is the `c`-th accepted, and is closed right after, before client `c + 1` is accepted. */
  lemma {:induction false} InTurnLogAt(n: nat, c: nat)
    requires c < n
    ensures InTurnLog(n)[2 * c] == Accepted(c)
    ensures InTurnLog(n)[2 * c + 1] == Closed(c)
  {
    if c < n - 1 {
      InTurnLogAt(n - 1, c);
    }
  }

  /** Serving in turn means at most one connection is open at any point of the log. */
  lemma {:induction false} AtMostOneOpen(n: nat, k: nat)
    requires k <= 2 * n
    ensures OpenConnections(InTurnLog(n)[..k]) == k % 2
    ensures 0 <= OpenConnections(InTurnLog(n)[..k]) <= 1
  {
    var log := InTurnLog(n);
    if k > 0 {
      AtMostOneOpen(n, k - 1);
      assert log[..k][..k - 1] == log[..k - 1];
      InTurnLogAt(n, (k - 1) / 2);
    }
  }

  /** What client `c` receives when the slot holds `slot` as `accept` starts waiting for it. */
  function Served(slot: Option<ByteArray>, c: Client): seq<Byte>
  {
    Transmit(Snapshots(LatestOf(slot, c.whileAccepting), c.cycles))
  }

  /** The slot once client `c`'s connection is closed. */
  function LeftBehind(slot: Option<ByteArray>, c: Client): Option<ByteArray>
  {
    LatestOf(LatestOf(slot, c.whileAccepting), Flatten(c.cycles))
  }

  /** What each client from `from` on receives when they are served in turn, the slot starting at `slot`. */
  function ServeFrom(slot: Option<ByteArray>, clients: seq<Client>, from: nat): (wires: seq<seq<Byte>>)
    requires from <= |clients|
    ensures |wires| == |clients| - from
    decreases |clients| - from
  {
    if from == |clients| then []
    else [Served(slot, clients[from])] + ServeFrom(LeftBehind(slot, clients[from]), clients, from + 1)
  }

  /** The slot as `accept` starts waiting for client `to`, clients `from` up to `to` having been served. */
  function SlotBefore(slot: Option<ByteArray>, clients: seq<Client>, from: nat, to: nat): Option<ByteArray>
    requires from <= to <= |clients|
    decreases (to as int) - (from as int)
  {
    if from == to then slot else SlotBefore(LeftBehind(slot, clients[from]), clients, from + 1, to)
  }

  /** Client `i` is served from the slot the clients before it left behind. */
  lemma {:induction false} ServeFromAt(slot: Option<ByteArray>, clients: seq<Client>, from: nat, i: nat)
    requires from <= i < |clients|
    ensures ServeFrom(slot, clients, from)[i - from] == Served(SlotBefore(slot, clients, from, i), clients[i])
    decreases i - from
  {
    if i > from {
      var tail := ServeFrom(LeftBehind(slot, clients[from]), clients, from + 1);
      assert ServeFrom(slot, clients, from) == [Served(slot, clients[from])] + tail;
      ServeFromAt(LeftBehind(slot, clients[from]), clients, from + 1, i);
    }
  }

  /** The slot a client finds holds the last frame stored since the server started, if any. */
  lemma {:induction false} SlotBeforeIsLatest(slot: Option<ByteArray>, clients: seq<Client>, from: nat, to: nat)
    requires from <= to <= |clients|
    ensures SlotBefore(slot, clients, from, to) == LatestOf(slot, PublishedBetween(clients, from, to))
    decreases (to as int) - (from as int)
  {
    if from < to {
      var c := clients[from];
      var rest := PublishedBetween(clients, from + 1, to);
      SlotBeforeIsLatest(LeftBehind(slot, c), clients, from + 1, to);
      LatestOfAppend(slot, c.whileAccepting, Flatten(c.cycles));
      LatestOfAppend(slot, c.whileAccepting + Flatten(c.cycles), rest);
    }
  }

  /**
   * Client `i` receives its own cycles' messages, starting from the slot as
   * the analyzer left it after everything stored while the earlier clients
   * were awaited and served, and while `accept` waited for client `i`.
   */
  lemma ServedInTurn(slot: Option<ByteArray>, clients: seq<Client>, i: nat)
    requires i < |clients|
    ensures ServeFrom(slot, clients, 0)[i]
         == Transmit(Snapshots(LatestOf(slot, PublishedBetween(clients, 0, i) + clients[i].whileAccepting), clients[i].cycles))
  {
    ServeFromAt(slot, clients, 0, i);
    SlotBeforeIsLatest(slot, clients, 0, i);
    LatestOfAppend(slot, PublishedBetween(clients, 0, i), clients[i].whileAccepting);
  }

  /**
   * One turn of the accept loop: `accept` waits while the analyzer keeps
   * storing frames, client `i` is accepted, its send loop runs until the
   * connection fails, and `finally` closes its socket.
   */
  method ServeClient(slot: FrameSlot, c: Client, i: nat) returns (wire: seq<Byte>, events: seq<ServerEvent>)
    requires slot.Valid()
    modifies slot
    ensures slot.Valid()
    ensures events == [Accepted(i), Closed(i)]
    ensures wire == Served(old(slot.currentJpeg), c)
    ensures slot.currentJpeg == LeftBehind(old(slot.currentJpeg), c)
    ensures slot.published == old(slot.published) + (c.whileAccepting + Flatten(c.cycles))
  {
    SnocAssociates(slot.published, c.whileAccepting, Flatten(c.cycles));
    PublishEach(slot, c.whileAccepting);
    events := [Accepted(i)];
    wire := SendLoop(slot, c.cycles);
    events := events + [Closed(i)];
  }

  /**
   * The accept loop of `startServer`: because the send loop runs inside it,
   * client `i` is accepted only after client `i - 1`'s loop has ended and its
   * socket was closed. Each client receives the messages of its own cycles,
   * starting from whatever the slot held when it was accepted.
   */
  method AcceptLoop(slot: FrameSlot, clients: seq<Client>) returns (wires: seq<seq<Byte>>, log: seq<ServerEvent>)
    requires slot.Valid()
    modifies slot
    ensures slot.Valid()
    ensures log == InTurnLog(|clients|)
    ensures wires == ServeFrom(old(slot.currentJpeg), clients, 0)
    ensures slot.published == old(slot.published) + PublishedBetween(clients, 0, |clients|)
    ensures slot.currentJpeg == LatestOf(old(slot.currentJpeg), PublishedBetween(clients, 0, |clients|))
  {
    ghost var start := slot.currentJpeg;
    ghost var history := slot.published;
    wires, log := [], [];
    for i := 0 to |clients|
      invariant slot.Valid()
      invariant wires + ServeFrom(slot.currentJpeg, clients, i) == ServeFrom(start, clients, 0)
      invariant log == InTurnLog(i)
      invariant slot.currentJpeg == SlotBefore(start, clients, 0, i)
      invariant slot.published == history + PublishedBetween(clients, 0, i)
    {
      wires, log := AcceptNext(slot, clients, i, start, wires, log);
      SlotBeforeSnoc(start, clients, 0, i);
      PublishedBetweenSnoc(clients, 0, i);
      SnocAssociates(history, PublishedBetween(clients, 0, i), clients[i].whileAccepting + Flatten(clients[i].cycles));
    }
    SlotBeforeIsLatest(start, clients, 0, |clients|);
  }

  /** One turn of the accept loop: client `i` is accepted, served and closed. */
  method AcceptNext(slot: FrameSlot, clients: seq<Client>, i: nat, ghost start: Option<ByteArray>,
                    wires: seq<seq<Byte>>, log: seq<ServerEvent>)
    returns (wires': seq<seq<Byte>>, log': seq<ServerEvent>)
    requires slot.Valid() && i < |clients|
    requires wires + ServeFrom(slot.currentJpeg, clients, i) == ServeFrom(start, clients, 0)
    requires log == InTurnLog(i)
    modifies slot
    ensures slot.Valid()
    ensures wires' + ServeFrom(slot.currentJpeg, clients, i + 1) == ServeFrom(start, clients, 0)
    ensures log' == InTurnLog(i + 1)
    ensures slot.currentJpeg == LeftBehind(old(slot.currentJpeg), clients[i])
    ensures slot.published == old(slot.published) + (clients[i].whileAccepting + Flatten(clients[i].cycles))
  {
    ghost var before := slot.currentJpeg;
    var wire, events := ServeClient(slot, clients[i], i);
    assert ServeFrom(before, clients, i) == [wire] + ServeFrom(slot.currentJpeg, clients, i + 1);
    SnocKeepsWhole(wires, wire, ServeFrom(slot.currentJpeg, clients, i + 1), ServeFrom(start, clients, 0));
    log' := log + events;
    wires' := wires + [wire];
  }

  /** Serving one more client moves the slot on by what that client left behind. */
  lemma {:induction false} SlotBeforeSnoc(slot: Option<ByteArray>, clients: seq<Client>, from: nat, to: nat)
    requires from <= to < |clients|
    ensures SlotBefore(slot, clients, from, to + 1) == LeftBehind(SlotBefore(slot, clients, from, to), clients[to])
    decreases (to as int) - (from as int)
  {
    if from < to {
      SlotBeforeSnoc(LeftBehind(slot, clients[from]), clients, from + 1, to);
    }
  }

  /** Serving one more client adds the frames stored while it was awaited and served. */
  lemma {:induction false} PublishedBetweenSnoc(clients: seq<Client>, from: nat, to: nat)
    requires from <= to < |clients|
    ensures PublishedBetween(clients, from, to + 1)
         == PublishedBetween(clients, from, to) + (clients[to].whileAccepting + Flatten(clients[to].cycles))
    decreases (to as int) - (from as int)
  {
    var c := clients[from];
    if from == to {
      assert PublishedBetween(clients, from + 1, to + 1) == [];
    } else {
      PublishedBetweenSnoc(clients, from + 1, to);
    }
  }
}
