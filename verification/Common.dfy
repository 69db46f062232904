/** Values shared by every component of the model. */
module Common {

  datatype Option<+T> = None | Some(value: T)

  /** A call that either returns or raises, as the source's exceptions do. */
  datatype Result<+T, +E> = Ok(value: T) | Err(error: E)

  /** The verdict of a job, as `JobStatus` of executor/server message.py. */
  datatype JobStatus = PASS | WARN | COMPLETE | FAIL | INCOMPLETE | UNKNOWN | SETUP_FAIL

  lemma Associative<T>(a: seq<T>, b: seq<T>, c: seq<T>)
    ensures (a + b) + c == a + (b + c)
  {
  }

  lemma LastOf<T>(s: seq<T>)
    requires |s| > 0
    ensures s == s[..|s| - 1] + [s[|s| - 1]]
  {
  }
}
