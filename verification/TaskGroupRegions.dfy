/** The token queue and the locked regions of `Group.Run`, in the form the code has. */
module TaskGroupRegions {
  import opened Prelude
  import opened TaskGroup

  /** A buffered channel of tokens. */
  class TokenQueue {
    const capacity: nat
    var tokens: nat

    ghost predicate Valid()
      reads this
    {
      tokens <= capacity
    }

    /** `Concurrency(n)`: a channel for `n` tokens, filled without blocking. */
    constructor (n: nat)
      ensures Valid() && capacity == n && tokens == n
      ensures tokens == Init(Group(Some(n), false), []).tokens
    {
      capacity := n;
      tokens := 0;
      new;
      for i := 0 to n
        invariant tokens == i
      {
        Send();
      }
    }

    /** A send that has room. */
    method Send()
      requires Valid() && tokens < capacity
      modifies this
      ensures Valid() && tokens == old(tokens) + 1
    {
      tokens := tokens + 1;
    }
  }

  /** The variables that `errorAccess` guards, with the two contexts' done flags. */
  class RunVars {
    var taskCount: int
    var returnError: Option<Err>
    var cancelled: bool
    var finished: bool

    ghost function View(): Shared
      reads this
    {
      Shared(taskCount, returnError, cancelled, finished)
    }

    constructor (tasks: nat)
      ensures View() == Shared(tasks, None, false, false)
    {
      taskCount, returnError, cancelled, finished := tasks, None, false, false;
    }

    /** The locked region after a task body; the caller goes on to finish the run on zero. */
    method RecordOutcome(name: string, err: Option<Err>, fastFail: bool) returns (currentCount: int)
      modifies this
      ensures View() == Record(old(View()), name, err, fastFail)
      ensures currentCount == View().count
    {
      if err.Some? {
        var e := err.value;
        if name != "" {
          e := Named(name, e);
        }
        returnError := ErrorsJoin(returnError, Some(e));
        if fastFail {
          cancelled := true;
        }
      }
      taskCount := taskCount - 1;
      currentCount := taskCount;
    }

    /** The locked region of a task that was cancelled while it waited for a token. */
    method SkipTask()
      modifies this
      ensures View() == Skip(old(View()))
    {
      taskCount := taskCount - 1;
      var currentCount := taskCount;
      if currentCount == 0 {
        cancelled := true;
        finished := true;
      }
    }
  }
}
