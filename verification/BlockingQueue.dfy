/** The closable queue of `utils.hpp`: a FIFO, a `closed` flag and ONE condition variable that both
    `get` (waiting for an item) and `wait` (waiting for emptiness) sleep on.

    Every operation runs inside the queue's mutex, so each is one atomic step; a blocking operation
    is one step up to falling asleep and one more for each re-evaluation of its predicate. The
    sleeper that `notify_one` picks is a parameter (`wake`): the environment chooses it. */
module BlockingQueue {
  datatype Thread = Caller | Pre | Infer | Post

  datatype QueueState<T> = QueueState(items: seq<T>, closed: bool, asleep: set<Thread>)

  datatype Outcome<T> = Got(value: T) | Blocked | QueueClosed

  datatype Done = Passed | Waits | Threw

  function Opened<T>(): QueueState<T> {
    QueueState([], false, {})
  }

  /** `notify_one` may pick any sleeper, and must pick one if there is one. */
  predicate CanWake(asleep: set<Thread>, wake: Thread) {
    asleep == {} || wake in asleep
  }

  function GetStep<T>(q: QueueState<T>, self: Thread, wake: Thread): (QueueState<T>, Outcome<T>) {
    if q.items == [] then
      if q.closed then (q, QueueClosed) else (q.(asleep := q.asleep + {self}), Blocked)
    else
      (q.(items := q.items[1..], asleep := q.asleep - {wake}), Got(q.items[0]))
  }

  function PutStep<T>(q: QueueState<T>, x: T, wake: Thread): (QueueState<T>, Done) {
    if q.closed then (q, Threw)
    else (q.(items := q.items + [x], asleep := q.asleep - {wake}), Passed)
  }

  function WaitStep<T>(q: QueueState<T>, self: Thread): (QueueState<T>, Done) {
    if q.closed then (q, Threw)
    else if q.items == [] then (q, Passed)
    else (q.(asleep := q.asleep + {self}), Waits)
  }

  function CloseStep<T>(q: QueueState<T>): QueueState<T> {
    q.(closed := true, asleep := {})
  }

  /** The class itself: its fields are updated in place, each method against the functions above. */
  class Queue<T> {
    var q: seq<T>
    var closed: bool
    var asleep: set<Thread>

    function View(): QueueState<T>
      reads this
    {
      QueueState(q, closed, asleep)
    }

    constructor ()
      ensures View() == Opened()
    {
      q, closed, asleep := [], false, {};
    }

    method Get(self: Thread, wake: Thread) returns (r: Outcome<T>)
      modifies this
      ensures (View(), r) == GetStep(old(View()), self, wake)
      ensures old(q) != [] ==> r == Got(old(q)[0]) && q == old(q)[1..] && asleep == old(asleep) - {wake}
      ensures old(q) == [] ==> q == [] && r == (if old(closed) then QueueClosed else Blocked)
      ensures old(q) == [] ==> asleep == old(asleep) + if old(closed) then {} else {self}
      ensures closed == old(closed)
    {
      if closed && |q| == 0 {
        return QueueClosed;
      }
      if |q| > 0 {
        r := Got(q[0]);
        q := q[1..];
        asleep := asleep - {wake};
      } else {
        asleep := asleep + {self};
        r := Blocked;
      }
    }

    method Put(x: T, wake: Thread) returns (r: Done)
      modifies this
      ensures (View(), r) == PutStep(old(View()), x, wake)
      ensures r == if old(closed) then Threw else Passed
      ensures q == (if old(closed) then old(q) else old(q) + [x]) && closed == old(closed)
      ensures asleep == if old(closed) then old(asleep) else old(asleep) - {wake}
    {
      if closed {
        return Threw;
      }
      q := q + [x];
      asleep := asleep - {wake};
      r := Passed;
    }

    method Wait(self: Thread) returns (r: Done)
      modifies this
      ensures (View(), r) == WaitStep(old(View()), self)
      ensures r == if old(closed) then Threw else if old(q) == [] then Passed else Waits
      ensures q == old(q) && closed == old(closed)
      ensures asleep == old(asleep) + if r.Waits? then {self} else {}
    {
      if closed {
        return Threw;
      }
      if |q| == 0 {
        r := Passed;
      } else {
        asleep := asleep + {self};
        r := Waits;
      }
    }

    method Close()
      modifies this
      ensures View() == CloseStep(old(View()))
      ensures closed && q == old(q) && asleep == {}
    {
      closed := true;
      asleep := {};
    }
  }
}
