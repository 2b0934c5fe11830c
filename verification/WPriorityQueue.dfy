/** src/tptask.cpp, include/tp_sys_task.hpp: tasks and their order. */
module Tasks {
  type Priority = p: int | 0 <= p <= 3      // LOW, MEDIUM, HIGH, SYSTEM
  type UserPriority = p: int | 0 <= p <= 2  // "do not use" SYSTEM

  const SYSTEM: Priority := 3

  /** Every task object has its own identity. SYSTEM is reserved for the pool's control tasks. */
  datatype Task =
    | User(id: nat, priority: UserPriority)
    | TPStop(id: nat)
    | TPSuspend(id: nat)

  function PriorityOf(t: Task): Priority {
    match t
    case User(_, p) => p
    case _ => SYSTEM
  }

  predicate Less(a: Task, b: Task) {
    PriorityOf(a) < PriorityOf(b)
  }

  /** What `std::priority_queue::top` may return: some element that no other one exceeds. */
  ghost predicate IsTop(t: Task, content: multiset<Task>) {
    t in content && forall u :: u in content ==> !Less(t, u)
  }

  lemma {:induction false} TopExists(content: multiset<Task>)
    requires content != multiset{}
    ensures exists t :: IsTop(t, content)
    decreases |content|
  {
    var x :| x in content;
    var rest := content - multiset{x};
    if rest == multiset{} {
      assert content == multiset{x};
      assert IsTop(x, content);
    } else {
      TopExists(rest);
      var y :| IsTop(y, rest);
      assert content == rest + multiset{x};
      assert IsTop(if Less(x, y) then y else x, content);
    }
  }

  /** What a top is, by the tasks' own fields: a user task comes out only when no control task is
      there and no user task of a higher priority. */
  lemma TopMeaning(t: Task, content: multiset<Task>)
    ensures IsTop(t, content) <==>
      t in content && (t.User? ==> forall u :: u in content ==> u.User? && u.priority <= t.priority)
  {
    if IsTop(t, content) && t.User? {
      forall u | u in content ensures u.User? && u.priority <= t.priority {
        assert !Less(t, u);
      }
    }
  }
}

/** The queue as its users see it: each operation one step. */
module AtomicQueue {
  import opened Tasks

  /** `tickets` are the threads that passed the semaphore but have not popped yet. */
  datatype Queue = Queue(content: multiset<Task>, sem: nat, tickets: nat)

  predicate Balanced(q: Queue) {
    q.sem + q.tickets == |q.content|
  }

  function Push(q: Queue, t: Task): Queue {
    q.(content := q.content + multiset{t}, sem := q.sem + 1)
  }

  function Take(q: Queue): Queue
    requires q.sem > 0
  {
    q.(sem := q.sem - 1, tickets := q.tickets + 1)
  }

  function Remove(q: Queue, t: Task): Queue
    requires q.tickets > 0
  {
    q.(content := q.content - multiset{t}, tickets := q.tickets - 1)
  }

  ghost predicate Step(q: Queue, q': Queue) {
    || (exists t :: q' == Push(q, t))
    || (q.sem > 0 && q' == Take(q))
    || (q.tickets > 0 && exists t :: IsTop(t, q.content) && q' == Remove(q, t))
  }
}

/** include/wpriorityqueue.hpp and src/semaphore.cpp as objects used by one thread at a time. */
module WPriorityQueue {
  import opened Tasks
  import opened AtomicQueue

  class Semaphore {
    var value: nat

    constructor ()
      ensures value == 0
    {
      value := 0;
    }

    method Post()
      modifies this
      ensures value == old(value) + 1
    {
      value := value + 1;
    }

    /** Callable only where `sem_wait` returns: it blocks at 0. */
    method Wait()
      requires value > 0
      modifies this
      ensures value == old(value) - 1
    {
      value := value - 1;
    }

    method TimedWait() returns (timedOut: bool)
      modifies this
      ensures timedOut <==> old(value) == 0
      ensures value == if timedOut then old(value) else old(value) - 1
    {
      timedOut := value == 0;
      if !timedOut {
        value := value - 1;
      }
    }
  }

  class WPriorityQueue {
    const m_sem: Semaphore
    var m_pq: multiset<Task>

    ghost predicate Valid()
      reads this, m_sem
    {
      m_sem.value == |m_pq|
    }

    ghost function View(): Queue
      reads this, m_sem
    {
      Queue(m_pq, m_sem.value, 0)
    }

    constructor ()
      ensures Valid() && m_pq == multiset{} && fresh(m_sem)
    {
      m_sem := new Semaphore();
      m_pq := multiset{};
    }

    method Push(new_val: Task)
      requires Valid()
      modifies this, m_sem
      ensures Valid() && View() == AtomicQueue.Push(old(View()), new_val)
      ensures m_pq == old(m_pq) + multiset{new_val} && m_sem.value == old(m_sem.value) + 1
    {
      m_pq := m_pq + multiset{new_val};
      m_sem.Post();
    }

    method LockAndPop() returns (ret_val: Task)
      requires m_pq != multiset{}
      modifies this
      ensures IsTop(ret_val, old(m_pq)) && m_pq == old(m_pq) - multiset{ret_val}
      ensures ret_val.User? ==> forall u :: u in old(m_pq) ==> u.User? && u.priority <= ret_val.priority
    {
      TopExists(m_pq);
      ghost var top :| IsTop(top, m_pq);
      ret_val :| ret_val in m_pq && forall u :: u in m_pq ==> !Less(ret_val, u);
      TopMeaning(ret_val, m_pq);
      m_pq := m_pq - multiset{ret_val};
    }

    method Pop() returns (ret_val: Task)
      requires Valid() && m_sem.value > 0
      modifies this, m_sem
      ensures Valid() && IsTop(ret_val, old(m_pq))
      ensures View() == Remove(Take(old(View())), ret_val)
      ensures m_pq == old(m_pq) - multiset{ret_val} && m_sem.value == old(m_sem.value) - 1
      ensures ret_val.User? ==> forall u :: u in old(m_pq) ==> u.User? && u.priority <= ret_val.priority
    {
      m_sem.Wait();
      ret_val := LockAndPop();
    }

    method PopTimeout() returns (popped: bool, ret_val: Task)
      requires Valid()
      modifies this, m_sem
      ensures Valid() && (popped <==> old(m_sem.value) > 0)
      ensures popped ==> IsTop(ret_val, old(m_pq)) && View() == Remove(Take(old(View())), ret_val)
      ensures popped ==> m_pq == old(m_pq) - multiset{ret_val} && m_sem.value == old(m_sem.value) - 1
      ensures popped && ret_val.User? ==> forall u :: u in old(m_pq) ==> u.User? && u.priority <= ret_val.priority
      ensures !popped ==> View() == old(View())
    {
      ret_val := TPStop(0);
      var timedOut := m_sem.TimedWait();
      if timedOut {
        return false, ret_val;
      }
      ret_val := LockAndPop();
      popped := true;
    }
  }
}
