/** Definitions shared by every component of the kernel model. */
module Common {
  /** The number of values of the kernel's `uint32_t` counters. */
  const WORD_VALUES: nat := 0x1_0000_0000

  /** The number of slots of the process table, which bounds every process identifier. */
  const MAX_PROCESSES: nat := 64

  datatype Option<+T> = None | Some(value: T)

  /** The value that `uint32_t` arithmetic keeps of `x`. */
  function Wrap(x: int): (r: nat)
    ensures r < WORD_VALUES
    ensures 0 <= x < WORD_VALUES ==> r == x
  {
    x % WORD_VALUES
  }

  /** Wrapping early or late makes no difference. */
  lemma WrapAgain(x: int, n: int)
    ensures Wrap(Wrap(x) + n) == Wrap(x + n)
  {
  }

  /** `x++` on a `uint32_t`. */
  function Increment(x: nat): nat {
    Wrap(x + 1)
  }

  ghost predicate NoDuplicates<T>(s: seq<T>) {
    forall i, j :: 0 <= i < j < |s| ==> s[i] != s[j]
  }
}
