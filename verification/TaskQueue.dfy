/** The bounded queue of a thread pool: a ring buffer. */
module TaskQueues {
  import opened Collections

  datatype Task = User(id: nat) | Stop

  /** A position in the ring, one step on. */
  function Next(i: nat, length: nat): nat {
    if i + 1 == length then 0 else i + 1
  }

  /** The position k steps behind front, in a ring of the given length. */
  function At(front: nat, k: nat, length: nat): int {
    if front + k < length then front + k else front + k - length
  }

  /** The n elements from `front` on, around the end. */
  ghost function Ring(data: seq<Task>, front: nat, n: nat): (r: seq<Task>)
    requires n <= |data| && (front < |data| || n == 0)
    ensures |r| == n
    decreases n
  {
    if n == 0 then [] else [data[front]] + Ring(data, Next(front, |data|), n - 1)
  }

  lemma {:induction false} RingKeeps(data: seq<Task>, front: nat, n: nat, i: nat, x: Task)
    requires n < |data| && front < |data| && i < |data|
    requires forall k | 0 <= k < n :: At(front, k, |data|) != i
    ensures Ring(data[i := x], front, n) == Ring(data, front, n)
    decreases n
  {
    if n > 0 {
      var next := Next(front, |data|);
      forall k | 0 <= k < n - 1 ensures At(next, k, |data|) != i {
        assert At(front, k + 1, |data|) != i;
      }
      assert At(front, 0, |data|) != i;
      RingKeeps(data, next, n - 1, i, x);
    }
  }

  lemma {:induction false} RingSnoc(data: seq<Task>, front: nat, n: nat)
    requires n < |data| && front < |data|
    ensures 0 <= At(front, n, |data|) < |data|
    ensures Ring(data, front, n + 1) == Ring(data, front, n) + [data[At(front, n, |data|)]]
    decreases n
  {
    if n > 0 {
      RingSnoc(data, Next(front, |data|), n - 1);
    }
  }

  lemma PushedRing(data: seq<Task>, front: nat, n: nat, x: Task)
    requires n < |data| && front < |data|
    ensures var back := At(front, n, |data|);
            0 <= back < |data| && Ring(data[back := x], front, n + 1) == Ring(data, front, n) + [x]
  {
    var back := At(front, n, |data|);
    RingKeeps(data, front, n, back, x);
    RingSnoc(data[back := x], front, n);
  }

  class TaskQueue {
    const data: array<Task>
    var front: nat
    var back: nat
    var size: nat

    ghost predicate Valid()
      reads this, data
    {
      && size <= data.Length
      && (data.Length == 0 ==> front == back == 0)
      && (data.Length > 0 ==> front < data.Length && back == At(front, size, data.Length))
    }

    /** What was pushed, oldest first. */
    ghost function Contents(): seq<Task>
      requires Valid()
      reads this, data
    {
      Ring(data[..], front, size)
    }

    constructor (capacity: nat)
      ensures Valid() && Contents() == [] && data.Length == capacity && fresh(data)
    {
      data := new Task[capacity](_ => Stop);
      front, back, size := 0, 0, 0;
    }

    method Store(task: Task)
      requires Valid() && size < data.Length
      modifies this, data
      ensures Valid() && Contents() == old(Contents()) + [task]
    {
      PushedRing(data[..], front, size, task);
      data[back] := task;
      back := back + 1;
      if back == data.Length {
        back := 0;
      }
      size := size + 1;
    }

    method Take() returns (task: Task)
      requires Valid() && size > 0
      modifies this
      ensures Valid() && old(Contents()) == [task] + Contents()
    {
      task := data[front];
      front := front + 1;
      if front == data.Length {
        front := 0;
      }
      size := size - 1;
    }

    /** One pass through the waiting loop: while the queue is full the caller waits, and nothing has changed. */
    method Push(task: Task) returns (waits: bool)
      requires Valid()
      modifies this, data
      ensures Valid() && waits == (|old(Contents())| == data.Length)
      ensures Contents() == if waits then old(Contents()) else old(Contents()) + [task]
    {
      waits := size == data.Length;
      if !waits {
        Store(task);
      }
    }

    /** One pass through the waiting loop: while the queue is empty the caller waits. */
    method Pop() returns (task: Option<Task>)
      requires Valid()
      modifies this
      ensures Valid() && (task == None <==> old(Contents()) == [])
      ensures old(Contents()) == (if task.Some? then [task.value] else []) + Contents()
    {
      if size == 0 {
        return None;
      }
      var t := Take();
      task := Some(t);
    }

    /** Refuses if the queue is full. */
    method TryPush(task: Task) returns (refused: Option<Task>)
      requires Valid()
      modifies this, data
      ensures Valid()
      ensures if |old(Contents())| < data.Length then refused == None && Contents() == old(Contents()) + [task]
              else refused == Some(task) && Contents() == old(Contents())
    {
      if size >= data.Length {
        return Some(task);
      }
      Store(task);
      refused := None;
    }

    method TryPop() returns (task: Option<Task>)
      requires Valid()
      modifies this
      ensures Valid()
      ensures if old(Contents()) == [] then task == None && Contents() == []
              else task.Some? && old(Contents()) == [task.value] + Contents()
    {
      if size == 0 {
        return None;
      }
      var t := Take();
      task := Some(t);
    }
  }
}
