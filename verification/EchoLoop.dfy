/** The echo program on top of the driver: one packet received, rewritten and sent at a
    time. */
module EchoLoop {
  import opened Words
  import SendQueue
  import RecvQueue
  import SendClient
  import SendFifo
  import SendWqe
  import RecvClient
  import RecvFifo
  import opened QueuePair
  import Echo
  import Frames

  datatype Outcome = Done | Running | NoPacket | NotSent | NotReleased

  /** The echo of one packet, in order; nothing if it has none. */
  function EchoFrames(ethertype: uint16, pkt: bytes): (fs: seq<bytes>)
    ensures |fs| <= 1
  {
    var v := Echo.EchoOf(ethertype, pkt);
    if v.Echoed? then [v.frame] else []
  }

  lemma NoEchoes(ethertype: uint16)
    ensures Echo.Echoes(ethertype, []) == []
  {}

  lemma EchoesSnoc(ethertype: uint16, read: seq<bytes>, pkt: bytes)
    ensures Echo.Echoes(ethertype, read + [pkt]) == Echo.Echoes(ethertype, read) + EchoFrames(ethertype, pkt)
  {
    hide Echo.EchoOf;
    assert (read + [pkt])[..|read|] == read;
  }

  /** Why a single frame cannot be sent: its length, or a full ring without a success to
      wait for. */
  ghost predicate TxFailure(tx: SendQueue.Sq, frame: bytes)
    reads tx, tx.cq
  {
    || !SendWqe.ValidLength(|frame|)
    || (SendQueue.Room(tx.fifo) == 0 && SendFifo.InVain(tx.fifo, tx.cq.written))
  }

  /** Sends the echo of a packet, if it has one. */
  method Answer(tx: SendQueue.Sq, ethertype: uint16, pkt: bytes, txFrame: array<byte>) returns (ok: bool, sent: nat)
    requires tx.Valid() && tx.DoorbellMapped()
    requires txFrame.Length == Frames.CAPACITY && txFrame != tx.ring
    modifies tx, tx.ring, tx.cq, tx.cq.ring, txFrame
    ensures tx.Valid() && |tx.fifo.posts| == |old(tx.fifo).posts| + sent
    ensures SendClient.Frames(tx.fifo.posts)
         == SendClient.Frames(old(tx.fifo).posts) + if ok then EchoFrames(ethertype, pkt) else []
    ensures !ok ==> sent == 0 && EchoFrames(ethertype, pkt) != [] && TxFailure(tx, EchoFrames(ethertype, pkt)[0])
    ensures sent <= |EchoFrames(ethertype, pkt)| && (ok ==> sent == |EchoFrames(ethertype, pkt)|)
  {
    hide SendQueue.Refines, Echo.EchoOf, SendFifo.Stalled, SendFifo.InVain;
    ghost var was := SendClient.Frames(tx.fifo.posts);
    var v := Echo.Reflect(ethertype, pkt, txFrame);
    ok, sent := true, 0;
    assert was + [] == was;
    if v.Echoed? {
      ghost var n, before := 0, tx.fifo;
      ok, n := SendClient.Send(tx, [txFrame[..|pkt|]]);
      assert [v.frame][..n] == if ok then [v.frame] else [];
      if !ok && SendWqe.ValidLength(|v.frame|) {
        assert SendQueue.FirstBad([v.frame]) == 1;
        SendFifo.StalledInVain(before, tx.fifo, tx.cq.written);
      }
      sent := if ok then 1 else 0;
    }
  }

  /** One round: a packet is read, its echo sent if it has one, and it is given back. */
  method Round(rx: RecvQueue.Rq, tx: SendQueue.Sq, ethertype: uint16, timeoutMs: int, memory: nat,
               txFrame: array<byte>, ghost was: seq<bytes>)
    returns (rc: Outcome, sent: nat, ghost read: seq<bytes>, ghost given: nat)
    requires RecvClient.Took(rx, was, |was|) && tx.Valid() && tx.DoorbellMapped() && Apart(rx, tx)
    requires txFrame.Length == Frames.CAPACITY
    requires txFrame !in {rx.ring, rx.cq.ring, tx.ring, tx.cq.ring}
    modifies rx, rx.ring, rx.pages, rx.cq, rx.cq.ring, tx, tx.ring, tx.cq, tx.cq.ring, txFrame
    ensures RecvClient.Took(rx, read, given) && tx.Valid() && rc != Done
    ensures rc == Running ==> given == |read|
    ensures if rc == NoPacket then read == was else |read| == |was| + 1 && read[..|was|] == was
    ensures SendClient.Frames(tx.fifo.posts) == SendClient.Frames(old(tx.fifo).posts) + Answered(ethertype, rc, read)
    ensures |tx.fifo.posts| == |old(tx.fifo).posts| + sent
    ensures sent <= 1 && sent == |Answered(ethertype, rc, read)|
    ensures rc == NoPacket ==> RecvClient.InVain(rx.fifo, rx.cq.written) || timeoutMs < 0
    ensures rc == NotSent ==>
              && EchoFrames(ethertype, read[|was|]) != []
              && TxFailure(tx, EchoFrames(ethertype, read[|was|])[0])
    ensures rc == NotReleased ==> memory == 0 && rx.fifo.prod < RecvFifo.RQ_WQE_COUNT
  {
    hide RecvQueue.Refines, SendQueue.Refines, RecvClient.Took, EchoFrames, SendClient.Frames,
         RecvClient.InVain, TxFailure;
    rc, sent, given := Running, 0, |was|;
    var pkts := RecvClient.Take(rx, 1, timeoutMs, was);
    read := was + pkts;
    if |pkts| != 1 {
      assert read == was;
      rc := NoPacket;
      return;
    }
    assert read[..|was|] == was && read[|was|] == pkts[0];
    var ok;
    ok, sent := Answer(tx, ethertype, pkts[0], txFrame);
    var released := RecvClient.Give(rx, 1, memory, read, given);
    given := if released then |read| else given;
    rc := if !ok then NotSent else if !released then NotReleased else Running;
  }

  /** What a round has posted. */
  function Answered(ethertype: uint16, rc: Outcome, read: seq<bytes>): (fs: seq<bytes>)
    ensures |fs| <= 1
  {
    if rc == NoPacket || rc == NotSent || read == [] then [] else EchoFrames(ethertype, read[|read| - 1])
  }

  /** The first `rounds` rounds of the loop, with `memory(i)` buffers to be had in round
      `i`.  Each round reads one packet.  Whatever the peers and the device do, the frames
      posted are the echoes of the packets read, once each and in arrival order, except
      that a packet whose echo could not be sent ends the run; every packet is given back
      before the next is taken.  A run that fails has a cause. */
  method Run(rx: RecvQueue.Rq, tx: SendQueue.Sq, ethertype: uint16, packetCount: nat, timeoutMs: int, rounds: nat,
             memory: nat -> nat)
    returns (rc: Outcome, echoed: nat, ghost read: seq<bytes>)
    requires rx.Valid() && rx.fifo.delivered == [] && rx.fifo.released == 0
    requires tx.Valid() && tx.fifo.Unused() && tx.DoorbellMapped() && Apart(rx, tx)
    modifies rx, rx.ring, rx.pages, rx.cq, rx.cq.ring, tx, tx.ring, tx.cq, tx.cq.ring
    ensures rx.Valid() && tx.Valid()
    ensures |read| == |rx.fifo.delivered| && RecvClient.Copies(read, rx.fifo, 0) && RecvClient.InOrder(rx.fifo)
    ensures echoed == |tx.fifo.posts| <= packetCount && |read| <= rounds
    ensures SendClient.Frames(tx.fifo.posts)
         == Echo.Echoes(ethertype, if rc == NotSent && read != [] then read[..|read| - 1] else read)
    ensures SendQueue.OnWire(tx.wire, tx.fifo.posts, tx.fifo.lost, tx.fifo.fetched)
    ensures rc == Done || rc == Running ==> rx.outstanding == 0 && (rc == Done <==> echoed == packetCount)
    ensures rc == Running ==> |read| == rounds
    ensures rc == NoPacket ==> RecvClient.InVain(rx.fifo, rx.cq.written) || timeoutMs < 0
    ensures rc == NotSent ==>
              && read != [] && EchoFrames(ethertype, read[|read| - 1]) != []
              && TxFailure(tx, EchoFrames(ethertype, read[|read| - 1])[0])
    ensures rc == NotReleased ==> read != [] && memory(|read| - 1) == 0 && rx.fifo.prod < RecvFifo.RQ_WQE_COUNT
  {
    hide RecvQueue.Refines, SendQueue.Refines, RecvClient.Took, Echo.Echoes, EchoFrames, SendClient.Frames,
         RecvClient.InVain, TxFailure, SendQueue.OnWire, Answered, RecvClient.Copies, RecvClient.InOrder;
    rc, echoed, read := Running, 0, [];
    var txFrame := new byte[Frames.CAPACITY](_ => 0);
    ghost var given: nat := 0;
    var round := 0;
    RecvClient.Begins(rx);
    SendClient.NothingPosted(tx);
    NoEchoes(ethertype);
    while echoed < packetCount && round < rounds
      invariant RecvClient.Took(rx, read, given) && given == |read| == round <= rounds && tx.Valid()
      invariant echoed == |tx.fifo.posts| <= packetCount && rc == Running
      invariant SendClient.Frames(tx.fifo.posts) == Echo.Echoes(ethertype, read)
      decreases rounds - round
    {
      ghost var was := read;
      var sent;
      rc, sent, read, given := Round(rx, tx, ethertype, timeoutMs, memory(round), txFrame, was);
      echoed := echoed + sent;
      AnsweredEchoes(ethertype, rc, was, read);
      if rc != Running {
        break;
      }
      round := round + 1;
    }
    if rc == Running && echoed == packetCount {
      rc := Done;
    }
    Ends(rx, tx, read, given);
  }

  lemma Ends(rx: RecvQueue.Rq, tx: SendQueue.Sq, read: seq<bytes>, given: nat)
    requires RecvClient.Took(rx, read, given) && tx.Valid()
    ensures rx.Valid() && |read| == |rx.fifo.delivered| && rx.outstanding == |read| - given
    ensures RecvClient.Copies(read, rx.fifo, 0) && RecvClient.InOrder(rx.fifo)
    ensures SendQueue.OnWire(tx.wire, tx.fifo.posts, tx.fifo.lost, tx.fifo.fetched)
  {
    RecvClient.Taken(rx, read, given);
    SendClient.WireSoFar(tx);
  }

  lemma AnsweredEchoes(ethertype: uint16, rc: Outcome, was: seq<bytes>, read: seq<bytes>)
    requires if rc == NoPacket then read == was else |read| == |was| + 1 && read[..|was|] == was
    ensures Echo.Echoes(ethertype, was) + Answered(ethertype, rc, read)
         == Echo.Echoes(ethertype, if rc == NotSent then was else read)
  {
    hide Echo.Echoes, EchoFrames;
    if rc != NoPacket {
      assert read == was + [read[|was|]];
      EchoesSnoc(ethertype, was, read[|was|]);
    }
    assert Echo.Echoes(ethertype, was) + [] == Echo.Echoes(ethertype, was);
  }
}
