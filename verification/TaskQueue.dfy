/** The queue whose Get does not poll: writers append to a deque and then release a lock; the one
    reader waits by acquiring that lock. Every point at which another thread can run is a step. */
module TaskQueue {
  import opened Common

  /** Where the reader stands in Get. */
  datatype Reader<T> =
    | Outside               // not calling Get
    | Acquiring             // inside lock.acquire
    | Checking              // has taken the lock, about to test the deque
    | Popping               // saw a non-empty deque
    | Rechecking(item: T)   // popped an item, about to test the deque again
    | Signalling(item: T)   // saw a non-empty deque again, about to release the lock
    | Returning(item: T)    // Get is about to return
    | Failed                // popleft on an empty deque

  datatype Queue<T> = Queue(deque: seq<T>, lockFree: bool, reader: Reader<T>)

  /** A new queue holds its own lock. */
  function NewQueue<T>(): Queue<T> { Queue([], false, Outside) }

  /** First half of Put. */
  function Append<T>(q: Queue<T>, item: T): Queue<T> { q.(deque := q.deque + [item]) }

  /** Releasing a lock that is already free raises an error, which is swallowed. */
  function Signal<T>(q: Queue<T>): Queue<T> { q.(lockFree := true) }

  predicate Blocked<T>(q: Queue<T>) { q.reader.Acquiring? && !q.lockFree }

  predicate InsideGet<T>(q: Queue<T>) { !q.reader.Outside? && !q.reader.Returning? && !q.reader.Failed? }

  /** One step of Get. */
  function ReadStep<T>(q: Queue<T>): Queue<T>
    requires InsideGet(q) && !Blocked(q)
  {
    match q.reader
    case Acquiring => q.(lockFree := false, reader := Checking)
    case Checking => q.(reader := if q.deque == [] then Acquiring else Popping)
    case Popping => if q.deque == [] then q.(reader := Failed)
                    else q.(deque := q.deque[1..], reader := Rechecking(q.deque[0]))
    case Rechecking(item) => q.(reader := if q.deque == [] then Returning(item) else Signalling(item))
    case Signalling(item) => Signal(q).(reader := Returning(item))
  }

  /** The item the reader has taken from the deque and not yet returned. */
  function InHand<T>(q: Queue<T>): seq<T> {
    match q.reader
    case Rechecking(item) => [item]
    case Signalling(item) => [item]
    case Returning(item) => [item]
    case _ => []
  }

  /** No lost wake-up: while the reader is away from the deque, a non-empty deque comes with a free
      lock, or with a writer that still owes its release. */
  ghost predicate Wakeable<T>(q: Queue<T>, signalOwed: bool) {
    && !q.reader.Failed?
    && (q.reader.Popping? ==> q.deque != [])
    && (q.deque != [] && (q.reader.Outside? || q.reader.Acquiring? || q.reader.Returning?) ==> q.lockFree || signalOwed)
  }

  lemma ReadStepKeeps<T>(q: Queue<T>, signalOwed: bool)
    requires InsideGet(q) && !Blocked(q) && Wakeable(q, signalOwed)
    ensures Wakeable(ReadStep(q), signalOwed)
    ensures InHand(ReadStep(q)) + ReadStep(q).deque == InHand(q) + q.deque
  {
  }

  /** Weight of a queue towards termination: a free lock pays for one useless wake-up. */
  function Weight<T>(q: Queue<T>): nat {
    7 * |q.deque| + (if q.lockFree then 3 else 0) + match q.reader
      case Outside => 1
      case Acquiring => 0
      case Checking => 2
      case Popping => 1
      case Rechecking(_) => 7
      case Signalling(_) => 6
      case Returning(_) => 2
      case Failed => 0
  }

  lemma ReadStepDescends<T>(q: Queue<T>)
    requires InsideGet(q) && !Blocked(q)
    ensures Weight(ReadStep(q)) < Weight(q)
  {
  }

  /** The queue object. Its methods are the uninterrupted runs of the steps above. */
  class NonPollingSingleReaderQueue<T(0)> {
    var deque: seq<T>
    var lockFree: bool

    ghost function View(): Queue<T>
      reads this
    {
      Queue(deque, lockFree, Outside)
    }

    constructor ()
      ensures View() == NewQueue()
    {
      deque, lockFree := [], false;
    }

    method SignalAvailableItem()
      modifies this
      ensures View() == Signal(old(View()))
    {
      lockFree := true;
    }

    method Put(item: T)
      modifies this
      ensures View() == Signal(Append(old(View()), item))
    {
      deque := deque + [item];
      SignalAvailableItem();
    }

    /** Blocking in acquire lets other threads run: arrivals are the items that writers Put, one each
        time this call is blocked. A lock left free over an empty deque costs one more round. */
    method Get(arrivals: seq<T>) returns (item: T, arrived: nat)
      requires Wakeable(View(), false) && deque + arrivals != []
      modifies this
      ensures arrived <= |arrivals| && (arrived > 0 ==> arrived == 1 && old(deque) == [])
      ensures [item] + deque == old(deque) + arrivals[..arrived]
      ensures Wakeable(View(), false)
    {
      arrived := 0;
      while true
        invariant arrived <= |arrivals| && (arrived > 0 ==> arrived == 1 && old(deque) == [])
        invariant deque == old(deque) + arrivals[..arrived]
        invariant Wakeable(View(), false) && deque + arrivals[arrived..] != []
        decreases lockFree
      {
        if !lockFree {
          Put(arrivals[arrived]);
          arrived := arrived + 1;
        }
        lockFree := false;
        if deque != [] {
          item := deque[0];
          deque := deque[1..];
          if deque != [] {
            SignalAvailableItem();
          }
          return;
        }
      }
    }
  }
}
