/** Condition variables as seen by the threads that wait on them. */
module Monitor {
  type Thread = nat

  /** `waiting` holds the threads blocked in wait() that nobody has notified; `signalled`
      holds those a notify reached that have not taken the mutex back yet.  A thread that a
      spurious wake-up or a timeout released is in neither set. */
  datatype CondVar = CondVar(waiting: set<Thread>, signalled: set<Thread>) {

    predicate Valid() {
      waiting !! signalled
    }

    /** `pick` is a thread the scheduler may choose for notify_one. */
    predicate CanWake(pick: Thread) {
      waiting != {} ==> pick in waiting
    }

    function Park(t: Thread): CondVar {
      CondVar(waiting + {t}, signalled - {t})
    }

    function Leave(t: Thread): CondVar {
      CondVar(waiting - {t}, signalled - {t})
    }

    function NotifyOne(pick: Thread): CondVar {
      if pick in waiting then CondVar(waiting - {pick}, signalled + {pick}) else this
    }

    function NotifyAll(): CondVar {
      CondVar({}, signalled + waiting)
    }
  }

  const NOBODY := CondVar({}, {})
}
