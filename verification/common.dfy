/** Small shared vocabulary: optional values, the outcome of a call into a
    collaborator that may raise, and Python's `dict.get(k, default)` on the
    two kinds of maps the accumulator keeps. */
module Common {

  /** Python's `None` or a present value. */
  datatype Option<+T> = None | Some(value: T)

  /** A validated value or the reason it was refused (a raised `ValueError`). */
  datatype Result<+T, +E> = Ok(value: T) | Err(error: E)

  /** What a call into an outside collaborator (database, browser) did:
      either it returned a value or it raised an exception. */
  datatype Call<+T> = Returned(value: T) | Raised

  /** `counts.get(k, 0)` */
  function Count(counts: map<string, nat>, k: string): nat
  {
    if k in counts then counts[k] else 0
  }

  /** `buffers[k]` on a `defaultdict(list)`: a missing key reads as the empty list. */
  function Rows<T>(buffers: map<string, seq<T>>, k: string): seq<T>
  {
    if k in buffers then buffers[k] else []
  }

  /** Every value of a count map is at least 1 (a present key was counted). */
  predicate Positive(counts: map<string, nat>)
  {
    forall k :: k in counts ==> counts[k] >= 1
  }

  lemma PositiveCountZero(counts: map<string, nat>, k: string)
    requires Positive(counts)
    ensures Count(counts, k) == 0 <==> k !in counts
  {
  }

  /** No value of a count map exceeds `cap`. */
  predicate AtMost(counts: map<string, nat>, cap: nat)
  {
    forall k :: k in counts ==> counts[k] <= cap
  }
}
