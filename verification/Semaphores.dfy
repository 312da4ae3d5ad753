/**
 The counted lock on its own: what a call of either operation does to it. Pipes and the scheduler
 both build on these two functions.
 */
module Semaphores {

  datatype Semaphore<T> = Semaphore(count: nat, waiting: seq<T>)

  /** Lowered by `t`: one off the count, or `t` at the end of the wait list. */
  function Down<T>(s: Semaphore<T>, t: T): Semaphore<T>
  {
    if s.count == 0 then s.(waiting := s.waiting + [t]) else s.(count := s.count - 1)
  }

  /** Raised: handed to the first waiter, or one on the count. */
  function Up<T>(s: Semaphore<T>): Semaphore<T>
  {
    if s.waiting != [] then s.(waiting := s.waiting[1..]) else s.(count := s.count + 1)
  }
}
