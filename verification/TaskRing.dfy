/** The task queue of the worker pool (src/thread_pool.c): a ring of 768 slots, one lock, a shutdown flag. */
module TaskRing {
  const TASK_CAP := 768

  datatype Task = Task(fn: int, arg: int)

  /** What a worker does once it holds the lock: wait, leave for good, or run a task. */
  datatype Turn = Sleep | Leave | Run(task: Task)

  function Around(head: nat, i: nat): (k: nat)
    ensures k < TASK_CAP
  {
    (head + i) % TASK_CAP
  }

  /** The `count` tasks from slot `head` on, in ring order. */
  function Window(q: seq<Task>, head: nat, count: nat): (w: seq<Task>)
    requires |q| == TASK_CAP
    ensures |w| == count
  {
    seq(count, i requires 0 <= i < count => q[Around(head, i)])
  }

  /** Storing at the tail appends to the window, wherever the ring wraps. */
  lemma WindowGrows(q: seq<Task>, head: nat, count: nat, t: Task)
    requires |q| == TASK_CAP && head < TASK_CAP && count < TASK_CAP
    ensures Window(q[Around(head, count) := t], head, count + 1) == Window(q, head, count) + [t]
  {
    forall i: nat | i < count ensures Around(head, i) != Around(head, count) {
      Apart(head, i, count);
    }
  }

  lemma Apart(head: nat, i: nat, j: nat)
    requires head < TASK_CAP && i < j < TASK_CAP
    ensures Around(head, i) != Around(head, j)
  {
    assert head + i < 2 * TASK_CAP && head + j < 2 * TASK_CAP;
  }

  /** Advancing the head drops the first task of the window. */
  lemma WindowShrinks(q: seq<Task>, head: nat, count: nat)
    requires |q| == TASK_CAP && 0 < count
    ensures Window(q, Around(head, 1), count - 1) == Window(q, head, count)[1..]
  {
    forall i: nat | i < count - 1 ensures Around(Around(head, 1), i) == Around(head, i + 1) {
      Shift(head, i);
    }
  }

  /** The head slot holds the first task of the window. */
  lemma WindowStarts(q: seq<Task>, head: nat, count: nat)
    requires |q| == TASK_CAP && head < TASK_CAP && 0 < count
    ensures Window(q, head, count)[0] == q[head] && Window(q, head, count) == [q[head]] + Window(q, head, count)[1..]
  {
    assert Around(head, 0) == head;
  }

  lemma Shift(head: nat, i: nat)
    ensures Around(Around(head, 1), i) == Around(head, i + 1)
  {
    var d := (head + 1) / TASK_CAP;
    assert head + (i + 1) == ((head + 1) % TASK_CAP + i) + TASK_CAP * d;
  }

  class Ring {
    const q: array<Task>
    var head: nat
    var tail: nat
    var count: nat
    var shutdown: bool
    /** Every task ever accepted, and every task a worker ever took, in order. */
    ghost var accepted: seq<Task>
    ghost var started: seq<Task>

    ghost predicate Valid()
      reads this, q
    {
      && q.Length == TASK_CAP && head < TASK_CAP && count <= TASK_CAP
      && tail == Around(head, count)
      && accepted == started + Contents()
    }

    ghost function Contents(): seq<Task>
      reads this, q
      requires q.Length == TASK_CAP
    {
      Window(q[..], head, count)
    }

    constructor ()
      ensures Valid() && Contents() == [] && accepted == [] && !shutdown && fresh(q)
    {
      q := new Task[TASK_CAP](_ => Task(0, 0));
      head, tail, count, shutdown, accepted, started := 0, 0, 0, false, [], [];
    }

    /** tpool_submit: refused when the ring is full or shutting down, appended otherwise. */
    method Submit(t: Task) returns (rc: int)
      requires Valid()
      modifies this`tail, this`count, this`accepted, q
      ensures Valid()
      ensures rc == if |old(Contents())| == TASK_CAP || shutdown then -2 else 0
      ensures Contents() == if rc == 0 then old(Contents()) + [t] else old(Contents())
      ensures accepted == if rc == 0 then old(accepted) + [t] else old(accepted)
    {
      if count == TASK_CAP || shutdown {
        return -2;
      }
      WindowGrows(q[..], head, count, t);
      ghost var s := q[..];
      q[tail] := t;
      assert q[..] == s[tail := t];
      tail := (tail + 1) % TASK_CAP;
      count := count + 1;
      accepted := accepted + [t];
      return 0;
    }

    /** The locked part of worker_main: it sleeps only on an empty open ring and leaves only an empty closed one. */
    method Next() returns (r: Turn)
      requires Valid()
      modifies this`head, this`count, this`started
      ensures Valid()
      ensures old(Contents()) == [] ==> r == (if shutdown then Leave else Sleep) && Contents() == [] && started == old(started)
      ensures old(Contents()) != [] ==>
                r == Run(old(Contents())[0]) && Contents() == old(Contents())[1..] && started == old(started) + [old(Contents())[0]]
    {
      if count == 0 {
        return if shutdown then Leave else Sleep;
      }
      assert (head + 1) % TASK_CAP == Around(head, 1);
      hide Around, Window;
      WindowShrinks(q[..], head, count);
      WindowStarts(q[..], head, count);
      Shift(head, count - 1);
      var t := q[head];
      assert started + ([t] + Contents()[1..]) == (started + [t]) + Contents()[1..];
      head := (head + 1) % TASK_CAP;
      count := count - 1;
      started := started + [t];
      return Run(t);
    }

    /** tpool_shutdown: the flag goes up, nothing queued is lost. */
    method Shutdown()
      requires Valid()
      modifies this`shutdown
      ensures Valid() && shutdown
    {
      shutdown := true;
    }

    /** worker_main once the flag is up: it runs all that was accepted, in order, and only then leaves. */
    method Drain() returns (ran: seq<Task>)
      requires Valid() && shutdown
      modifies this`head, this`count, this`started
      ensures Valid() && Contents() == [] && ran == old(Contents()) && started == accepted == old(accepted)
    {
      hide Around, Window;
      ran := [];
      assert Contents() == [] || Contents() == [Contents()[0]] + Contents()[1..];
      var r := Next();
      while r != Leave
        invariant Valid() && (r == Leave ==> Contents() == [])
        invariant r == Leave || r.Run?
        invariant old(Contents()) == ran + (if r.Run? then [r.task] else []) + Contents()
        decreases |Contents()|, r.Run?
      {
        hide Around, Window;
        ran := ran + [r.task];
        assert Contents() == [] || Contents() == [Contents()[0]] + Contents()[1..];
        r := Next();
      }
      assert accepted == started + [];
    }
  }
}
