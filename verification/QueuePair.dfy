/** A receive and a transmit queue used together. */
module QueuePair {
  import SendQueue
  import RecvQueue

  /** They share neither rings nor completion queues. */
  ghost predicate Apart(rx: RecvQueue.Rq, tx: SendQueue.Sq)
    reads rx, tx
  {
    rx.ring != tx.ring && rx.ring != tx.cq.ring && rx.cq.ring != tx.ring && rx.cq.ring != tx.cq.ring && rx.cq != tx.cq
  }
}
